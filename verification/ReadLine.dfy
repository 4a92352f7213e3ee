/**
  readLine of 59-1-readLine.c: a linked list of buffers, one for each descriptor
  in use, in front of read. What a caller gets is what an unbuffered reader of
  the same stream would get.
 */
module ReadLine {
  import opened Sequences

  const BUF_SIZE := 4096

  // ------------------------------------------------------ unbuffered reading

  // The line that a reader of s with room for n bytes returns.
  function Line(s: seq<char>, n: nat): (r: seq<char>)
    ensures |r| <= n && |r| <= |s|
    decreases n
  {
    if n == 0 || s == [] || s[0] == '\n' then [] else [s[0]] + Line(s[1..], n - 1)
  }

  // What it leaves of s: a newline that it gets to is consumed as well.
  function Left(s: seq<char>, n: nat): (r: seq<char>)
    ensures |r| <= |s| && (n > 0 && s != [] ==> |r| < |s|)
    decreases n
  {
    if n == 0 || s == [] then s else if s[0] == '\n' then s[1..] else Left(s[1..], n - 1)
  }

  lemma {:induction false} NoNewline(s: seq<char>, n: nat)
    ensures '\n' !in Line(s, n)
    decreases n
  {
    if n > 0 && s != [] && s[0] != '\n' { NoNewline(s[1..], n - 1); }
  }

  lemma {:induction false} InFront(ch: char, line: seq<char>, left: seq<char>)
    ensures [ch] + (line + left) == [ch] + line + left
  {
  }

  // The line, with its newline when one was reached, is what was consumed; it
  // has no newline inside, and is shorter than n exactly when it stops at a
  // newline or the end.
  lemma {:induction false} LineAndLeft(s: seq<char>, n: nat)
    ensures s == Line(s, n) + Left(s, n) || s == Line(s, n) + (['\n'] + Left(s, n))
    ensures '\n' !in Line(s, n)
    ensures |Line(s, n)| < n ==> s == Line(s, n) || s == Line(s, n) + (['\n'] + Left(s, n))
    ensures |Line(s, n)| == n ==> s == Line(s, n) + Left(s, n)
    decreases n
  {
    NoNewline(s, n);
    if n > 0 && s != [] && s[0] != '\n' {
      var line, left := Line(s[1..], n - 1), Left(s[1..], n - 1);
      LineAndLeft(s[1..], n - 1);
      assert s == [s[0]] + s[1..] && Line(s, n) == [s[0]] + line;
      InFront(s[0], line, left);
      InFront(s[0], line, ['\n'] + left);
    }
  }

  // i bytes were consumed and are in the line; rest is what follows.
  predicate Midway(s: seq<char>, i: nat, rest: seq<char>) {
    |Line(s, i)| == i && Left(s, i) == rest
  }

  // Reading one byte more; at a newline more room changes nothing.
  lemma {:induction false} LineStep(s: seq<char>, i: nat, ch: char, rest: seq<char>, n: nat)
    requires Midway(s, i, [ch] + rest) && i < n
    ensures ch != '\n' ==> Midway(s, i + 1, rest) && Line(s, i + 1) == Line(s, i) + [ch]
    ensures ch == '\n' ==> Line(s, n) == Line(s, i) && Left(s, n) == rest
    decreases i
  {
    if i == 0 {
      assert s == [ch] + rest && s[1..] == rest;
    } else {
      LineStep(s[1..], i - 1, ch, rest, n - 1);
    }
  }

  // The line ends after i bytes, however much room there is.
  ghost predicate StopsAt(s: seq<char>, i: nat, rest: seq<char>) {
    |Line(s, i)| == i && forall n: nat | n > i :: Line(s, n) == Line(s, i) && Left(s, n) == rest
  }

  // Nor does it at the end of the stream.
  lemma {:induction false} LineEnds(s: seq<char>, i: nat, n: nat)
    requires Midway(s, i, []) && i <= n
    ensures Line(s, n) == Line(s, i) && Left(s, n) == []
    decreases i
  {
    if i > 0 { LineEnds(s[1..], i - 1, n - 1); }
  }

  // A line cut after m bytes is the whole line if and only if it stopped by
  // itself, or there was nothing more to read.
  lemma {:induction false} CutAgrees(s: seq<char>, m: nat, n: nat)
    requires m <= n
    ensures Line(s, n) == Line(s, m) && Left(s, n) == Left(s, m) <==>
            m == n || |Line(s, m)| < m || Left(s, m) == []
    decreases m
  {
    if m > 0 && s != [] && s[0] != '\n' {
      CutAgrees(s[1..], m - 1, n - 1);
      assert Line(s, n)[1..] == Line(s[1..], n - 1) && Line(s, m)[1..] == Line(s[1..], m - 1);
    }
  }

  // All the pieces that repeated calls return, each with whether its newline
  // was consumed, give back the stream.
  datatype Piece = Piece(line: seq<char>, ended: bool)

  function Pieces(s: seq<char>, n: nat): seq<Piece>
    requires n > 0
    decreases |s|
  {
    if s == [] then []
    else [Piece(Line(s, n), |Line(s, n)| + |Left(s, n)| < |s|)] + Pieces(Left(s, n), n)
  }

  function Glue(ps: seq<Piece>): seq<char> {
    if ps == [] then []
    else ps[0].line + ((if ps[0].ended then ['\n'] else []) + Glue(ps[1..]))
  }

  lemma {:induction false} NothingLost(s: seq<char>, n: nat)
    requires n > 0
    ensures Glue(Pieces(s, n)) == s
    decreases |s|
  {
    if s != [] {
      LineAndLeft(s, n);
      NothingLost(Left(s, n), n);
      assert Pieces(s, n)[1..] == Pieces(Left(s, n), n);
      assert [] + Left(s, n) == Left(s, n);
    }
  }

  // ------------------------------------------------------------- many readers

  datatype Request = Request(fd: int, n: nat)

  // What a reader that nobody disturbs answers to the requests for fd.
  function Alone(s: seq<char>, rs: seq<Request>, fd: int): seq<seq<char>>
    decreases |rs|
  {
    if rs == [] then []
    else if rs[0].fd == fd then [Line(s, rs[0].n)] + Alone(Left(s, rs[0].n), rs[1..], fd)
    else Alone(s, rs[1..], fd)
  }

  // The answers, out of all of them, to the requests for fd.
  function Chosen(rs: seq<Request>, answers: seq<seq<char>>, fd: int): seq<seq<char>>
    requires |rs| == |answers|
  {
    if rs == [] then []
    else (if rs[0].fd == fd then [answers[0]] else []) + Chosen(rs[1..], answers[1..], fd)
  }

  // What is left of the stream of fd after the requests for it.
  function After(s: seq<char>, rs: seq<Request>, fd: int): seq<char> {
    if rs == [] then s
    else
      var before, r := After(s, rs[..|rs| - 1], fd), rs[|rs| - 1];
      if r.fd == fd then Left(before, r.n) else before
  }

  lemma {:induction false} AfterOne(s: seq<char>, r: Request, rs: seq<Request>, fd: int)
    ensures After(s, [r] + rs, fd) == After(if r.fd == fd then Left(s, r.n) else s, rs, fd)
    decreases |rs|
  {
    var all, n := [r] + rs, |rs|;
    if n == 0 {
      assert all == [r] && [r][..0] == [];
    } else {
      AfterOne(s, r, rs[..n - 1], fd);
      assert all[..n] == [r] + rs[..n - 1] && all[n] == rs[n - 1];
    }
  }

  // So the answer to each request is the next line of what the requests for its
  // descriptor before it left.
  lemma {:induction false} EachAnswer(s: seq<char>, rs: seq<Request>, answers: seq<seq<char>>, k: nat)
    requires |rs| == |answers| && k < |rs| && Chosen(rs, answers, rs[k].fd) == Alone(s, rs, rs[k].fd)
    ensures answers[k] == Line(After(s, rs[..k], rs[k].fd), rs[k].n)
    decreases |rs|
  {
    var fd := rs[k].fd;
    if k == 0 {
      assert rs[..0] == [];
      assert Chosen(rs, answers, fd)[0] == answers[0];
    } else {
      var t := if rs[0].fd == fd then Left(s, rs[0].n) else s;
      assert rs[1..][k - 1] == rs[k] && answers[1..][k - 1] == answers[k];
      if rs[0].fd == fd {
        assert Chosen(rs, answers, fd)[1..] == Chosen(rs[1..], answers[1..], fd);
        assert Alone(s, rs, fd)[1..] == Alone(t, rs[1..], fd);
      }
      EachAnswer(t, rs[1..], answers[1..], k - 1);
      AfterOne(s, rs[0], rs[1..][..k - 1], fd);
      assert rs[..k] == [rs[0]] + rs[1..][..k - 1];
    }
  }

  lemma {:induction false} ChosenOneMore(rs: seq<Request>, answers: seq<seq<char>>, r: Request, line: seq<char>, fd: int)
    requires |rs| == |answers|
    ensures Chosen(rs + [r], answers + [line], fd) == Chosen(rs, answers, fd) + if r.fd == fd then [line] else []
    decreases |rs|
  {
    if rs != [] {
      assert (rs + [r])[1..] == rs[1..] + [r] && (answers + [line])[1..] == answers[1..] + [line];
      ChosenOneMore(rs[1..], answers[1..], r, line, fd);
    }
  }

  // told is what fd was answered; s and rs are what is left of its stream and
  // of the requests.
  predicate Told(told: seq<seq<char>>, s: seq<char>, rs: seq<Request>, fd: int, all: seq<seq<char>>) {
    told + Alone(s, rs, fd) == all
  }

  lemma {:induction false} ToldOneMore(done: seq<Request>, answers: seq<seq<char>>, r: Request, rs: seq<Request>, line: seq<char>,
                                       s: seq<char>, t: seq<char>, fd: int, all: seq<seq<char>>)
    requires |done| == |answers| && Told(Chosen(done, answers, fd), s, [r] + rs, fd, all)
    requires if r.fd == fd then line == Line(s, r.n) && t == Left(s, r.n) else t == s
    ensures Told(Chosen(done + [r], answers + [line], fd), t, rs, fd, all)
  {
    ChosenOneMore(done, answers, r, line, fd);
    assert ([r] + rs)[1..] == rs;
    var told := Chosen(done, answers, fd);
    if r.fd == fd {
      assert told + [line] + Alone(t, rs, fd) == told + ([line] + Alone(t, rs, fd));
    } else {
      assert told + [] == told;
    }
  }

  // -------------------------------------------------------- the buffer list

  // A buf_node in memory. buf holds the size bytes that the last read returned.
  datatype BufNode = BufNode(fd: int, cur: nat, buf: seq<char>, next: nat)

  // Memory by address, for header and the nodes that malloc gave out; free takes
  // a node away.
  type Memory = map<nat, BufNode>

  const NULL := 0
  const HEADER := 1

  // What a node means: where it is, and rest is read but not handed out.
  datatype Node = Node(at: nat, fd: int, rest: seq<char>)

  // The index of the node for fd, |nodes| when there is none.
  function Find(nodes: seq<Node>, fd: int): (k: nat)
    ensures k <= |nodes|
    ensures k < |nodes| ==> nodes[k].fd == fd
    ensures forall j | 0 <= j < k :: nodes[j].fd != fd
  {
    if nodes == [] || nodes[0].fd == fd then 0 else 1 + Find(nodes[1..], fd)
  }

  // The bytes of fd that were read but not handed out.
  function Held(nodes: seq<Node>, fd: int): seq<char> {
    if nodes == [] then [] else if nodes[0].fd == fd then nodes[0].rest else Held(nodes[1..], fd)
  }

  predicate NoneAt(nodes: seq<Node>, p: nat) {
    nodes == [] || (nodes[0].at != p && NoneAt(nodes[1..], p))
  }

  // One node a descriptor, each with a byte to hand out, no two in one place.
  predicate NodesOk(nodes: seq<Node>) {
    nodes == []
    || (nodes[0].rest != [] && nodes[0].at > HEADER && NoneAt(nodes[1..], nodes[0].at)
        && Find(nodes[1..], nodes[0].fd) == |nodes| - 1 && NodesOk(nodes[1..]))
  }

  lemma {:induction false} FindIs(nodes: seq<Node>, fd: int, k: nat)
    requires k <= |nodes| && forall j | 0 <= j < k :: nodes[j].fd != fd
    requires k < |nodes| ==> nodes[k].fd == fd
    ensures Find(nodes, fd) == k
  {
    var f := Find(nodes, fd);
    if f < k || k < f { assert false; }
  }

  lemma {:induction false} NodeAt(nodes: seq<Node>, k: nat)
    requires NodesOk(nodes) && k < |nodes|
    ensures nodes[k].rest != [] && Find(nodes, nodes[k].fd) == k && Held(nodes, nodes[k].fd) == nodes[k].rest
    decreases k
  {
    if k > 0 { NodeAt(nodes[1..], k - 1); }
  }

  lemma {:induction false} NoneHeld(nodes: seq<Node>, fd: int)
    requires Find(nodes, fd) == |nodes|
    ensures Held(nodes, fd) == []
  {
    if nodes != [] { NoneHeld(nodes[1..], fd); }
  }

  lemma {:induction false} HeldThere(nodes: seq<Node>, fd: int)
    requires NodesOk(nodes)
    ensures Held(nodes, fd) == [] <==> Find(nodes, fd) == |nodes|
  {
    if nodes != [] { HeldThere(nodes[1..], fd); }
  }

  lemma {:induction false} SetSame(nodes: seq<Node>, k: nat, rest: seq<char>, g: int, p: nat)
    requires k < |nodes|
    ensures var ns := nodes[k := nodes[k].(rest := rest)]; Find(ns, g) == Find(nodes, g) && NoneAt(ns, p) == NoneAt(nodes, p)
    decreases k
  {
    var b := nodes[k].(rest := rest);
    if k == 0 {
      assert nodes[0 := b][1..] == nodes[1..];
    } else {
      assert nodes[k := b][1..] == nodes[1..][k - 1 := b];
      SetSame(nodes[1..], k - 1, rest, g, p);
    }
  }

  lemma {:induction false} SetHeld(nodes: seq<Node>, k: nat, rest: seq<char>, g: int)
    requires NodesOk(nodes) && k < |nodes|
    ensures Held(nodes[k := nodes[k].(rest := rest)], g) == if g == nodes[k].fd then rest else Held(nodes, g)
    decreases k
  {
    var b := nodes[k].(rest := rest);
    if k == 0 {
      assert nodes[0 := b][1..] == nodes[1..];
    } else {
      assert nodes[k := b][1..] == nodes[1..][k - 1 := b];
      SetHeld(nodes[1..], k - 1, rest, g);
      NodeAt(nodes, k);
    }
  }

  // Changing the node of one descriptor changes nothing for the others.
  lemma {:induction false} SetNode(nodes: seq<Node>, k: nat, rest: seq<char>)
    requires NodesOk(nodes) && k < |nodes| && rest != []
    ensures NodesOk(nodes[k := nodes[k].(rest := rest)])
    decreases k
  {
    var b := nodes[k].(rest := rest);
    if k == 0 {
      assert nodes[0 := b][1..] == nodes[1..];
    } else {
      assert nodes[k := b][1..] == nodes[1..][k - 1 := b];
      SetSame(nodes[1..], k - 1, rest, nodes[0].fd, nodes[0].at);
      SetNode(nodes[1..], k - 1, rest);
    }
  }

  lemma {:induction false} AddNode(nodes: seq<Node>, b: Node, g: int)
    requires NodesOk(nodes) && Find(nodes, b.fd) == |nodes| && b.rest != [] && b.at > HEADER && NoneAt(nodes, b.at)
    ensures NodesOk([b] + nodes)
    ensures Held([b] + nodes, g) == if g == b.fd then b.rest else Held(nodes, g)
  {
    assert ([b] + nodes)[1..] == nodes;
  }

  lemma {:induction false} DropNode(nodes: seq<Node>, k: nat, g: int, p: nat)
    requires NodesOk(nodes) && k < |nodes|
    ensures NodesOk(Without(nodes, k)) && NoneAt(Without(nodes, k), nodes[k].at)
    ensures Held(Without(nodes, k), g) == if g == nodes[k].fd then [] else Held(nodes, g)
    ensures Find(nodes, g) == |nodes| || g == nodes[k].fd ==> Find(Without(nodes, k), g) == |nodes| - 1
    ensures NoneAt(nodes, p) ==> NoneAt(Without(nodes, k), p)
    decreases k
  {
    if k == 0 {
      assert Without(nodes, 0) == nodes[1..];
      if g == nodes[0].fd { NoneHeld(nodes[1..], g); }
    } else {
      assert Without(nodes, k)[1..] == Without(nodes[1..], k - 1);
      DropNode(nodes[1..], k - 1, g, p);
      DropNode(nodes[1..], k - 1, nodes[0].fd, nodes[0].at);
      NodeAt(nodes, k);
      ElsewhereAt(nodes, k);
    }
  }

  lemma {:induction false} ElsewhereAt(nodes: seq<Node>, k: nat)
    requires NodesOk(nodes) && 0 < k < |nodes|
    ensures nodes[0].at != nodes[k].at
  {
    NotThere(nodes[1..], nodes[0].at, k - 1);
  }

  lemma {:induction false} NotThere(nodes: seq<Node>, p: nat, k: nat)
    requires NoneAt(nodes, p) && k < |nodes|
    ensures nodes[k].at != p
    decreases k
  {
    if k > 0 { NotThere(nodes[1..], p, k - 1); }
  }

  // -------------------------------------------------------- the linked list

  predicate Means(c: BufNode, b: Node) {
    c.fd == b.fd && c.cur <= |c.buf| <= BUF_SIZE && c.buf == c.buf[..c.cur] + b.rest
  }

  lemma {:induction false} FreshMeans(c: BufNode, b: Node)
    requires c.fd == b.fd && c.cur == 0 && c.buf == b.rest && |c.buf| <= BUF_SIZE
    ensures Means(c, b)
  {
    assert c.buf[..0] + b.rest == b.rest;
  }

  lemma {:induction false} NextMeans(c: BufNode, b: Node)
    requires Means(c, b) && b.rest != []
    ensures c.cur < |c.buf| && c.buf[c.cur] == b.rest[0]
    ensures Means(c.(cur := c.cur + 1), b.(rest := b.rest[1..]))
    ensures c.cur + 1 >= |c.buf| ==> b.rest == [b.rest[0]]
  {
    assert c.buf[..c.cur + 1] + b.rest[1..] == c.buf;
  }

  lemma {:induction false} MeansLength(c: BufNode, b: Node)
    requires Means(c, b)
    ensures |c.buf| == c.cur + |b.rest|
  {
  }

  // Following next from p gives nodes.
  predicate Chain(m: Memory, p: nat, nodes: seq<Node>)
    decreases |nodes|
  {
    if nodes == [] then p == NULL
    else p == nodes[0].at && p in m && Means(m[p], nodes[0]) && Chain(m, m[p].next, nodes[1..])
  }

  // The address of node k, and of what comes before it.
  function Here(nodes: seq<Node>, k: nat): nat {
    if k < |nodes| then nodes[k].at else NULL
  }

  function Before(nodes: seq<Node>, k: nat): nat
    requires k <= |nodes|
  {
    if k == 0 then HEADER else nodes[k - 1].at
  }

  lemma {:induction false} ChainAt(m: Memory, p: nat, nodes: seq<Node>, k: nat)
    requires Chain(m, p, nodes) && k < |nodes|
    ensures nodes[k].at in m && Means(m[nodes[k].at], nodes[k]) && m[nodes[k].at].next == Here(nodes, k + 1)
    decreases k
  {
    if k > 0 { ChainAt(m, m[p].next, nodes[1..], k - 1); }
  }

  // What happens elsewhere in memory leaves a list alone.
  lemma {:induction false} ChainStays(m: Memory, p: nat, nodes: seq<Node>, x: nat, c: BufNode)
    requires Chain(m, p, nodes) && NoneAt(nodes, x)
    ensures Chain(m[x := c], p, nodes) && Chain(m - {x}, p, nodes)
    decreases |nodes|
  {
    if nodes != [] { ChainStays(m, m[p].next, nodes[1..], x, c); }
  }

  lemma {:induction false} FreshAt(m: Memory, p: nat, nodes: seq<Node>, x: nat)
    requires Chain(m, p, nodes) && x !in m
    ensures NoneAt(nodes, x)
    decreases |nodes|
  {
    if nodes != [] { FreshAt(m, m[p].next, nodes[1..], x); }
  }

  // A change of one node's cur and buf.
  lemma {:induction false} ChainSet(m: Memory, p: nat, nodes: seq<Node>, k: nat, c: BufNode, rest: seq<char>)
    requires Chain(m, p, nodes) && NodesOk(nodes) && k < |nodes| && nodes[k].at in m
    requires Means(c, nodes[k].(rest := rest)) && c.next == m[nodes[k].at].next
    ensures Chain(m[nodes[k].at := c], p, nodes[k := nodes[k].(rest := rest)])
    decreases k
  {
    var b := nodes[k].(rest := rest);
    if k == 0 {
      assert nodes[0 := b][1..] == nodes[1..];
      ChainStays(m, m[p].next, nodes[1..], p, c);
    } else {
      assert nodes[k := b][1..] == nodes[1..][k - 1 := b];
      ElsewhereAt(nodes, k);
      ChainSet(m, m[p].next, nodes[1..], k - 1, c, rest);
    }
  }

  // Line 54, then line 56: the node before k is linked to the one after it.
  lemma {:induction false} ChainCut(m: Memory, p: nat, nodes: seq<Node>, k: nat)
    requires Chain(m, p, nodes) && NodesOk(nodes) && 0 < k < |nodes|
    requires nodes[k].at in m && nodes[k - 1].at in m
    ensures var pre, x := nodes[k - 1].at, nodes[k].at;
            Chain(m[pre := m[pre].(next := m[x].next)] - {x}, p, Without(nodes, k))
    decreases k
  {
    var pre, x := nodes[k - 1].at, nodes[k].at;
    var c := m[pre].(next := m[x].next);
    assert Without(nodes, k)[1..] == Without(nodes[1..], k - 1);
    ElsewhereAt(nodes, k);
    if k == 1 {
      var rest := nodes[2..];
      assert nodes[1..][1..] == rest && Without(nodes[1..], 0) == rest;
      NoneAfter(nodes, 1);
      ChainStays(m, m[x].next, rest, pre, c);
      ChainStays(m[pre := c], m[x].next, rest, x, c);
    } else {
      ElsewhereAt(nodes, k - 1);
      ChainCut(m, m[p].next, nodes[1..], k - 1);
    }
  }

  lemma {:induction false} NoneAfter(nodes: seq<Node>, k: nat)
    requires NodesOk(nodes) && k < |nodes|
    ensures NoneAt(nodes[k + 1..], nodes[k].at) && (k == 1 ==> NoneAt(nodes[2..], nodes[0].at))
    decreases k
  {
    if k > 0 {
      NoneAfter(nodes[1..], k - 1);
      assert nodes[1..][k..] == nodes[k + 1..];
      assert nodes[1..][1..] == nodes[2..];
    }
  }

  // A caller's buffer after a line was written to its front.
  predicate Stored(was: seq<char>, now: seq<char>, line: seq<char>) {
    |line| <= |was| == |now|
    && forall j | 0 <= j < |was| :: now[j] == if j < |line| then line[j] else was[j]
  }

  lemma {:induction false} StoreStep(was: seq<char>, now: seq<char>, line: seq<char>, ch: char)
    requires Stored(was, now, line) && |line| < |was|
    ensures Stored(was, now[|line| := ch], line + [ch])
  {
  }

  // A caller gets the line with room for m bytes, and only what it consumed is
  // gone.
  predicate Served(s: seq<char>, m: nat, ret: int, rest: seq<char>, was: seq<char>, now: seq<char>) {
    ret == |Line(s, m)| && rest == Left(s, m) && Stored(was, now, Line(s, m))
  }

  // ------------------------------------------------------------ the kernel

  type ChunkSize = n: nat | 1 <= n <= BUF_SIZE witness 1

  // What becomes of a read: it returns a chunk of at most so many bytes (none at
  // the end of the stream), a signal interrupts it, or it fails otherwise.
  datatype Outcome = Chunk(most: ChunkSize) | Interrupt | Fail

  // What a read of a stream with s bytes left then returns.
  predicate Gives(fate: Outcome, s: nat, size: int, data: seq<char>, interrupted: bool) {
    if fate.Chunk? then size == |data| == (if fate.most < s then fate.most else s) && !interrupted
    else size == -1 && data == [] && (interrupted <==> fate.Interrupt?)
  }

  // A read that was made; opening says whether at line 35, for a new node, and
  // not at line 52, for one that is used up.
  datatype Use = Use(fd: int, opening: bool)

  // The reads of now that are not in was are all for fd, and of one kind.
  predicate Grown(was: seq<Use>, now: seq<Use>, fd: int, opening: bool) {
    |was| <= |now| && now[..|was|] == was && forall k | |was| <= k < |now| :: now[k] == Use(fd, opening)
  }

  lemma {:induction false} GrownTwice(a: seq<Use>, b: seq<Use>, c: seq<Use>, fd: int, opening: bool)
    requires Grown(a, b, fd, opening) && Grown(b, c, fd, opening)
    ensures Grown(a, c, fd, opening)
  {
    assert forall k | 0 <= k < |b| :: c[k] == c[..|b|][k];
    assert c[..|a|] == b[..|a|];
  }

  // ------------------------------------------------------------ the program

  class Library {
    const plan: seq<Outcome>          // the kernel: what becomes of each read
    var mem: Memory
    var top: nat                      // an address above all that were given out
    var streams: map<int, seq<char>>  // the kernel: what read has yet to return
    var trace: seq<Use>               // the reads made so far
    ghost var nodes: seq<Node>        // the list after header

    ghost predicate Valid()
      reads this
    {
      && HEADER in mem && NULL !in mem && HEADER < top && (forall p | p in mem :: p < top)
      && NodesOk(nodes) && NoneAt(nodes, HEADER) && Chain(mem, mem[HEADER].next, nodes)
    }

    constructor (plan: seq<Outcome>, streams: map<int, seq<char>>)
      ensures Valid() && nodes == [] && trace == [] && this.plan == plan && this.streams == streams
    {
      mem, top := map[HEADER := BufNode(0, 0, [], NULL)], HEADER + 1;
      this.plan, this.streams, trace, nodes := plan, streams, [], [];
    }

    function Stream(fd: int): seq<char>
      reads this
    {
      if fd in streams then streams[fd] else []
    }

    // What a caller has yet to see of fd.
    ghost function Pending(fd: int): seq<char>
      reads this
    {
      Held(nodes, fd) + Stream(fd)
    }

    // Any address that is not in use.
    method Malloc() returns (p: nat)
      requires Valid()
      modifies this`top
      ensures Valid() && p !in mem && HEADER < p < top
    {
      assert top !in mem;
      p :| p !in mem && p > HEADER;
      top := if p < top then top else p + 1;
    }

    // What becomes of read number k. The plan may be of any length.
    function Fate(k: nat): Outcome {
      if k < |plan| then plan[k] else Chunk(BUF_SIZE)
    }

    predicate Failed(k: nat) {
      !Fate(k).Chunk?
    }

    // The first read from k on that no signal interrupts.
    function FirstDone(k: nat): (r: nat)
      ensures r >= k && !Fate(r).Interrupt? && forall j | k <= j < r :: Fate(j).Interrupt?
      decreases |plan| - k
    {
      if Fate(k).Interrupt? then FirstDone(k + 1) else k
    }

    // The last of the reads between these two numbers failed.
    predicate Broke(from: nat, to: nat) {
      from < to && Failed(to - 1)
    }

    predicate NoneFailed(from: nat, to: int) {
      forall k | from <= k < to :: !Failed(k)
    }

    // A read costs the caller nothing: it succeeded, or it is made again.
    predicate Harmless(uses: seq<Use>, k: nat) {
      k < |uses| && (Fate(k).Chunk? || (Fate(k).Interrupt? && uses[k].opening))
    }

    predicate Quiet(uses: seq<Use>, from: nat) {
      forall k | from <= k < |uses| :: Harmless(uses, k)
    }

    lemma {:induction false} QuietBefore(was: seq<Use>, now: seq<Use>, from: nat)
      requires from <= |was| <= |now| && now[..|was|] == was && Quiet(now, from)
      ensures Quiet(was, from) && Quiet(now, |was|)
    {
      forall k | from <= k < |was| ensures Harmless(was, k) {
        assert Harmless(now, k) && now[..|was|][k] == was[k];
      }
    }

    // read(fd, buf, BUF_SIZE).
    method Read(fd: int, opening: bool) returns (size: int, data: seq<char>, interrupted: bool)
      modifies this`streams, this`trace
      ensures trace == old(trace) + [Use(fd, opening)]
      ensures old(Stream(fd)) == data + Stream(fd)
      ensures forall g | g != fd :: Stream(g) == old(Stream(g))
      ensures Gives(Fate(|old(trace)|), |old(Stream(fd))|, size, data, interrupted)
      ensures Failed(|old(trace)|) ==> streams == old(streams)
    {
      var s := Stream(fd);
      size, data, interrupted := -1, [], false;
      match Fate(|trace|) {
        case Chunk(most) =>
          size := if most < |s| then most else |s|;
          data := s[..size];
          streams := streams[fd := s[size..]];
        case Interrupt =>
          interrupted := true;
        case Fail =>
      }
      trace := trace + [Use(fd, opening)];
    }

    // Lines 24 to 26: the node of fd, NULL if there is none, and the one before.
    method Search(fd: int) returns (pre: nat, buf: nat, ghost k: nat)
      requires Valid()
      ensures pre == Before(nodes, Find(nodes, fd)) && buf == Here(nodes, Find(nodes, fd)) && k == Find(nodes, fd)
      ensures buf == NULL <==> Find(nodes, fd) == |nodes|
    {
      pre, buf, k := HEADER, mem[HEADER].next, 0;
      while buf != NULL && mem[buf].fd != fd
        invariant k <= |nodes| && pre == Before(nodes, k) && buf == Here(nodes, k)
        invariant buf != NULL ==> buf in mem
        invariant forall j | 0 <= j < k :: nodes[j].fd != fd
        decreases |nodes| - k
      {
        ChainAt(mem, mem[HEADER].next, nodes, k);
        pre, buf, k := buf, mem[buf].next, k + 1;
        if k < |nodes| { ChainAt(mem, mem[HEADER].next, nodes, k); }
      }
      if k < |nodes| { ChainAt(mem, mem[HEADER].next, nodes, k); }
      FindIs(nodes, fd, k);
    }

    // Lines 30 to 43, less the read: a new node at the front of the list.
    method Prepend(fd: int, data: seq<char>) returns (buf: nat)
      requires Valid() && Find(nodes, fd) == |nodes| && 0 < |data| <= BUF_SIZE
      modifies this`mem, this`top, this`nodes
      ensures Valid() && nodes == [Node(buf, fd, data)] + old(nodes)
      ensures forall g :: Held(nodes, g) == if g == fd then data else old(Held(nodes, g))
    {
      buf := Malloc();
      ghost var b, first := Node(buf, fd, data), mem[HEADER].next;
      FreshAt(mem, first, nodes, buf);
      forall g ensures Held([b] + nodes, g) == if g == fd then data else Held(nodes, g) {
        AddNode(nodes, b, g);
      }
      AddNode(nodes, b, fd);
      ghost var c := BufNode(fd, 0, data, first);
      ChainStays(mem, first, nodes, buf, c);
      mem := mem[buf := BufNode(fd, 0, data, mem[HEADER].next)];
      ghost var h := mem[HEADER].(next := buf);
      ChainStays(mem, first, nodes, HEADER, h);
      mem := mem[HEADER := mem[HEADER].(next := buf)];
      assert ([b] + nodes)[1..] == nodes;
      nodes := [b] + nodes;
    }

    // Lines 28 to 43: the first buffer of a descriptor; a read that a signal
    // interrupts is made again.
    method Open(fd: int) returns (buf: nat)
      requires Valid() && Find(nodes, fd) == |nodes|
      modifies this`mem, this`top, this`nodes, this`streams, this`trace
      ensures Valid() && (forall g :: Pending(g) == old(Pending(g)))
      ensures Grown(old(trace), trace, fd, true) && |trace| == FirstDone(|old(trace)|) + 1
      ensures buf == NULL <==> Fate(FirstDone(|old(trace)|)).Fail? || old(Stream(fd)) == []
      ensures if buf == NULL then nodes == old(nodes) else 0 < |nodes| && nodes[0].at == buf && nodes[0].fd == fd
    {
      NoneHeld(nodes, fd);
      var size, data := FirstRead(fd);
      if size <= 0 { return NULL; }
      buf := Prepend(fd, data);
    }

    // The last of the reads in now but not in was gave this.
    predicate Reading(was: seq<Use>, now: seq<Use>, fd: int, s: nat, size: int, data: seq<char>, interrupted: bool) {
      && Grown(was, now, fd, true)
      && if interrupted then size == -1 && data == [] && FirstDone(|now|) == FirstDone(|was|)
         else |now| == FirstDone(|was|) + 1 && Gives(Fate(|now| - 1), s, size, data, false)
    }

    lemma {:induction false} ReadOn(was: seq<Use>, now: seq<Use>, fd: int, s: nat, size: int, data: seq<char>, interrupted: bool)
      requires Grown(was, now, fd, true) && FirstDone(|now|) == FirstDone(|was|)
      requires Gives(Fate(|now|), s, size, data, interrupted)
      ensures Reading(was, now + [Use(fd, true)], fd, s, size, data, interrupted)
      ensures interrupted ==> |now| < FirstDone(|was|)
    {
      GrownTwice(was, now, now + [Use(fd, true)], fd, true);
    }

    // One read of line 35.
    method ReadOnce(fd: int, ghost was: seq<Use>) returns (size: int, data: seq<char>, interrupted: bool)
      requires Grown(was, trace, fd, true) && FirstDone(|trace|) == FirstDone(|was|)
      modifies this`streams, this`trace
      ensures Reading(was, trace, fd, |old(Stream(fd))|, size, data, interrupted)
      ensures interrupted ==> streams == old(streams) && |trace| <= FirstDone(|was|)
      ensures old(Stream(fd)) == data + Stream(fd)
      ensures forall g | g != fd :: Stream(g) == old(Stream(g))
      ensures |trace| > |old(trace)|
    {
      size, data, interrupted := Read(fd, true);
      ReadOn(was, old(trace), fd, |old(Stream(fd))|, size, data, interrupted);
    }

    // Line 35.
    method FirstRead(fd: int) returns (size: int, data: seq<char>)
      modifies this`streams, this`trace
      ensures Grown(old(trace), trace, fd, true) && |trace| == FirstDone(|old(trace)|) + 1
      ensures old(Stream(fd)) == data + Stream(fd)
      ensures forall g | g != fd :: Stream(g) == old(Stream(g))
      ensures Gives(Fate(FirstDone(|old(trace)|)), |old(Stream(fd))|, size, data, false)
    {
      ghost var was := trace;
      var interrupted;
      size, data, interrupted := ReadOnce(fd, was);
      while size == -1 && interrupted
        modifies this`streams, this`trace
        invariant Reading(was, trace, fd, |old(Stream(fd))|, size, data, interrupted)
        invariant interrupted ==> streams == old(streams) && |trace| <= FirstDone(|was|)
        invariant old(Stream(fd)) == data + Stream(fd)
        invariant forall g | g != fd :: Stream(g) == old(Stream(g))
        decreases FirstDone(|was|) + 1 - |trace|
      {
        size, data, interrupted := ReadOnce(fd, was);
      }
    }

    // Lines 54 to 56: the node after pre is taken out and freed.
    method Unlink(pre: nat, buf: nat, ghost k: nat)
      requires Valid() && k < |nodes| && pre == Before(nodes, k) && buf == nodes[k].at
      modifies this`mem, this`nodes
      ensures Valid() && buf !in mem && nodes == Without(old(nodes), k)
      ensures Find(nodes, old(nodes[k].fd)) == |nodes|
      ensures forall g :: Held(nodes, g) == if g == old(nodes[k].fd) then [] else old(Held(nodes, g))
    {
      ghost var first := mem[HEADER].next;
      forall g ensures Held(Without(nodes, k), g) == if g == nodes[k].fd then [] else Held(nodes, g) {
        DropNode(nodes, k, g, HEADER);
      }
      DropNode(nodes, k, nodes[k].fd, HEADER);
      ChainAt(mem, first, nodes, k);
      if k > 0 {
        ChainAt(mem, first, nodes, k - 1);
        ChainCut(mem, first, nodes, k);
        NotThere(nodes, HEADER, k - 1);
      } else {
        assert Without(nodes, 0) == nodes[1..];
        ghost var h := mem[HEADER].(next := mem[buf].next);
        ChainStays(mem, mem[buf].next, nodes[1..], HEADER, h);
        ChainStays(mem[HEADER := h], mem[buf].next, nodes[1..], buf, h);
      }
      NotThere(nodes, HEADER, k);
      mem := mem[pre := mem[pre].(next := mem[buf].next)];
      mem := mem - {buf};
      nodes := Without(nodes, k);
    }

    // What node k holds changes from within.
    method Update(buf: nat, c: BufNode, ghost k: nat, ghost rest: seq<char>)
      requires Valid() && k < |nodes| && buf == nodes[k].at && rest != []
      requires buf in mem && c.next == mem[buf].next && Means(c, nodes[k].(rest := rest))
      modifies this`mem, this`nodes
      ensures Valid() && nodes == old(nodes)[k := old(nodes[k]).(rest := rest)]
      ensures forall g :: Held(nodes, g) == if g == nodes[k].fd then rest else old(Held(nodes, g))
    {
      ghost var ns := nodes[k := nodes[k].(rest := rest)];
      forall g ensures Held(ns, g) == if g == nodes[k].fd then rest else Held(nodes, g) {
        SetHeld(nodes, k, rest, g);
      }
      SetSame(nodes, k, rest, 0, HEADER);
      SetNode(nodes, k, rest);
      ChainSet(mem, mem[HEADER].next, nodes, k, c, rest);
      NotThere(nodes, HEADER, k);
      mem := mem[buf := c];
      nodes := ns;
    }

    // Node k, with its predecessor, is the one for fd.
    ghost predicate At(fd: int, pre: nat, buf: nat, k: nat)
      reads this
    {
      k < |nodes| && nodes[k].fd == fd && nodes[k].at == buf && pre == Before(nodes, k)
    }

    // The node is gone because a refill failed or found nothing, or it is as k
    // says and no refill from read number n on has failed.
    ghost predicate Standing(fd: int, pre: nat, buf: nat, k: nat, gone: bool, n: nat)
      reads this
    {
      if gone then (Broke(n, |trace|) || Pending(fd) == []) && Pending(fd) == Stream(fd) && NoneFailed(n, |trace| - 1)
      else At(fd, pre, buf, k) && NoneFailed(n, |trace|)
    }

    lemma {:induction false} AfterRefill(fd: int, pre: nat, buf: nat, k: nat, gone: bool, n: nat)
      requires |trace| == n + 1
      requires if gone then Find(nodes, fd) == |nodes| && (Failed(n) || Stream(fd) == [])
               else At(fd, pre, buf, k) && !Failed(n)
      ensures Standing(fd, pre, buf, k, gone, n)
    {
      if gone { NoneHeld(nodes, fd); }
    }

    // Lines 50 to 60: the node is used up; one more read, and if that fails or
    // finds the end of the stream the node is freed (gone).
    method Refill(fd: int, pre: nat, buf: nat, ghost k: nat) returns (gone: bool)
      requires Valid() && At(fd, pre, buf, k)
      modifies this`mem, this`nodes, this`streams, this`trace
      ensures Valid() && Pending(fd) == old(Stream(fd))
      ensures forall g | g != fd :: Pending(g) == old(Pending(g))
      ensures trace == old(trace) + [Use(fd, false)]
      ensures gone <==> Failed(|old(trace)|) || old(Stream(fd)) == []
      ensures if gone then buf !in mem && Find(nodes, fd) == |nodes| else At(fd, pre, buf, k)
      ensures Standing(fd, pre, buf, k, gone, |old(trace)|)
    {
      var size, data, interrupted := Read(fd, false);
      gone := Replace(fd, pre, buf, k, size, data);
      AfterRefill(fd, pre, buf, k, gone, |old(trace)|);
    }

    // What is done with what that read returned.
    method Replace(fd: int, pre: nat, buf: nat, ghost k: nat, size: int, data: seq<char>) returns (gone: bool)
      requires Valid() && At(fd, pre, buf, k) && (size <= 0 <==> data == []) && |data| <= BUF_SIZE
      modifies this`mem, this`nodes
      ensures Valid() && (gone <==> size <= 0)
      ensures forall g :: Held(nodes, g) == if g == fd then data else old(Held(nodes, g))
      ensures if gone then buf !in mem && Find(nodes, fd) == |nodes| else At(fd, pre, buf, k)
    {
      gone := size <= 0;
      if gone {
        Drop(fd, pre, buf, k);
      } else {
        Reload(buf, data, k);
      }
    }

    // Lines 54 to 56, as the descriptor sees them.
    method Drop(fd: int, pre: nat, buf: nat, ghost k: nat)
      requires Valid() && At(fd, pre, buf, k)
      modifies this`mem, this`nodes
      ensures Valid() && buf !in mem && Find(nodes, fd) == |nodes|
      ensures forall g :: Held(nodes, g) == if g == fd then [] else old(Held(nodes, g))
    {
      Unlink(pre, buf, k);
    }

    // Lines 52 and 59: the bytes of the next read.
    method Reload(buf: nat, data: seq<char>, ghost k: nat)
      requires Valid() && k < |nodes| && buf == nodes[k].at && 0 < |data| <= BUF_SIZE
      modifies this`mem, this`nodes
      ensures Valid() && nodes == old(nodes)[k := old(nodes[k]).(rest := data)]
      ensures forall g :: Held(nodes, g) == if g == old(nodes[k].fd) then data else old(Held(nodes, g))
    {
      ChainAt(mem, mem[HEADER].next, nodes, k);
      FreshMeans(mem[buf].(cur := 0, buf := data), nodes[k].(rest := data));
      Update(buf, mem[buf].(cur := 0, buf := data), k, data);
    }

    // Lines 48 to 60: the next byte of the node.
    method NextByte(fd: int, pre: nat, buf: nat, ghost k: nat) returns (ch: char, gone: bool)
      requires Valid() && At(fd, pre, buf, k)
      modifies this`mem, this`nodes, this`streams, this`trace
      ensures Valid() && old(Pending(fd)) == [ch] + Pending(fd)
      ensures forall g | g != fd :: Pending(g) == old(Pending(g))
      ensures Grown(old(trace), trace, fd, false) && |trace| <= |old(trace)| + 1
      ensures |trace| > |old(trace)| <==> old(|nodes[k].rest|) == 1
      ensures Standing(fd, pre, buf, k, gone, |old(trace)|) && (gone ==> buf !in mem)
    {
      NodeAt(nodes, k);
      assert Pending(fd) == nodes[k].rest + Stream(fd);
      var last;
      ch, last := Current(buf, k);
      gone := false;
      if last {
        gone := Refill(fd, pre, buf, k);
      } else {
        assert nodes[k].rest == [ch] + nodes[k].rest[1..];
        Advance(buf, k);
      }
    }

    // Lines 48 and 50: the byte at cur, and whether it is the last one.
    method Current(buf: nat, ghost k: nat) returns (ch: char, last: bool)
      requires Valid() && k < |nodes| && buf == nodes[k].at
      ensures nodes[k].rest != [] && ch == nodes[k].rest[0] && (last <==> nodes[k].rest == [ch])
      ensures buf in mem && (!last ==> mem[buf].cur + 1 < |mem[buf].buf|)
    {
      NodeAt(nodes, k);
      ChainAt(mem, mem[HEADER].next, nodes, k);
      NextMeans(mem[buf], nodes[k]);
      MeansLength(mem[buf], nodes[k]);
      var b := mem[buf];
      ch := b.buf[b.cur];
      var cur := b.cur + 1;  // REPAIR: the program never advances cur
      last := cur >= |b.buf|;
    }

    // The repaired line 48.
    method Advance(buf: nat, ghost k: nat)
      requires Valid() && k < |nodes| && buf == nodes[k].at && buf in mem
      requires nodes[k].rest != [] && mem[buf].cur + 1 < |mem[buf].buf|
      modifies this`mem, this`nodes
      ensures Valid() && nodes == old(nodes)[k := old(nodes[k]).(rest := old(nodes[k].rest[1..]))]
      ensures forall g :: Held(nodes, g) == if g == old(nodes[k].fd) then old(nodes[k].rest[1..]) else old(Held(nodes, g))
    {
      ChainAt(mem, mem[HEADER].next, nodes, k);
      NextMeans(mem[buf], nodes[k]);
      MeansLength(mem[buf], nodes[k]);
      Update(buf, mem[buf].(cur := mem[buf].cur + 1), k, nodes[k].rest[1..]);
    }

    // Lines 48 to 65: one byte more of the line, or its newline.
    method Take(fd: int, pre: nat, buf: nat, ghost k: nat, buffer: array<char>, i: nat, ghost s: seq<char>, ghost was: seq<char>)
      returns (gone: bool, newline: bool)
      requires Valid() && At(fd, pre, buf, k) && i < buffer.Length
      requires Midway(s, i, Pending(fd)) && Stored(was, buffer[..], Line(s, i))
      modifies this`mem, this`nodes, this`streams, this`trace, buffer
      ensures Valid() && (forall g | g != fd :: Pending(g) == old(Pending(g)))
      ensures Grown(old(trace), trace, fd, false) && |trace| <= |old(trace)| + 1
      ensures Standing(fd, pre, buf, k, gone, |old(trace)|)
      ensures newline ==> StopsAt(s, i, Pending(fd)) && Stored(was, buffer[..], Line(s, i))
      ensures !newline ==> Midway(s, i + 1, Pending(fd)) && Stored(was, buffer[..], Line(s, i + 1))
    {
      var ch;
      ch, gone := NextByte(fd, pre, buf, k);
      newline := ch == '\n';
      if newline {
        forall n: nat | n > i ensures Line(s, n) == Line(s, i) && Left(s, n) == Pending(fd) {
          LineStep(s, i, ch, Pending(fd), n);
        }
      } else {
        LineStep(s, i, ch, Pending(fd), i + 1);
        StoreStep(was, buffer[..], Line(s, i), ch);
        buffer[i] := ch;
      }
    }

    lemma {:induction false} StillStanding(was: seq<Use>, fd: int, pre: nat, buf: nat, k: nat, gone: bool, n: nat)
      requires n <= |was| <= |trace| <= |was| + 1 && NoneFailed(n, |was|)
      requires Standing(fd, pre, buf, k, gone, |was|)
      ensures Standing(fd, pre, buf, k, gone, n)
    {
    }

    // Lines 45 to 68, with the node found or made. Only the last read it makes
    // can fail, and unless that does m == n.
    method Fill(fd: int, pre: nat, buf: nat, ghost k: nat, buffer: array<char>, n: nat) returns (i: nat, ghost m: nat)
      requires Valid() && n <= buffer.Length && At(fd, pre, buf, k)
      modifies this`mem, this`nodes, this`streams, this`trace, buffer
      ensures Valid()
      ensures forall g | g != fd :: Pending(g) == old(Pending(g))
      ensures Grown(old(trace), trace, fd, false) && NoneFailed(|old(trace)|, |trace| - 1)
      ensures Broke(|old(trace)|, |trace|) ==> Pending(fd) == Stream(fd)
      ensures m <= n && (!Broke(|old(trace)|, |trace|) ==> m == n)
      ensures Served(old(Pending(fd)), m, i, Pending(fd), old(buffer[..]), buffer[..])
    {
      ghost var s, was, from := Pending(fd), buffer[..], |trace|;
      var gone := false;
      i := 0;
      // REPAIR: the index into the buffer restarts after a refill, and a node
      // that was freed is not read again
      while i < n && !gone
        invariant Valid() && i <= n && Grown(old(trace), trace, fd, false)
        invariant forall g | g != fd :: Pending(g) == old(Pending(g))
        invariant Midway(s, i, Pending(fd)) && Stored(was, buffer[..], Line(s, i))
        invariant Standing(fd, pre, buf, k, gone, from)
        decreases n - i
      {
        var newline;
        ghost var before := trace;
        gone, newline := Take(fd, pre, buf, k, buffer, i, s, was);
        GrownTwice(old(trace), before, trace, fd, false);
        StillStanding(before, fd, pre, buf, k, gone, from);
        if newline {
          return i, if Broke(from, |trace|) then i + 1 else n;
        }
        i := i + 1;
      }
      if i < n && !Broke(from, |trace|) { LineEnds(s, i, n); }
      m := if Broke(from, |trace|) then i else n;
    }

    // What one call does to the trace: while it opens a node it reads until no
    // signal interrupts, then it refills; only its last read costs anything.
    ghost predicate Traced(was: seq<Use>, fd: int, anew: bool)
      reads this
    {
      && |was| <= |trace| && trace[..|was|] == was
      && (forall k | |was| <= k < |trace| :: trace[k] == Use(fd, anew && k <= FirstDone(|was|)))
      && (forall k | |was| <= k < |trace| - 1 :: Harmless(trace, k))
      && (anew ==> |trace| > FirstDone(|was|))
    }

    lemma {:induction false} TracedOn(was: seq<Use>, mid: seq<Use>, fd: int, anew: bool)
      requires if anew then Grown(was, mid, fd, true) && |mid| == FirstDone(|was|) + 1 && !Failed(|mid| - 1) else mid == was
      requires Grown(mid, trace, fd, false) && NoneFailed(|mid|, |trace| - 1)
      ensures Traced(was, fd, anew)
      ensures Broke(|mid|, |trace|) <==> |trace| > |was| && !Harmless(trace, |trace| - 1)
    {
      assert forall k | 0 <= k < |mid| :: trace[k] == trace[..|mid|][k];
      assert trace[..|was|] == mid[..|was|];
      forall k | |was| <= k < |trace| ensures Harmless(trace, k) <==> k < |mid| || !Failed(k) {
        assert trace[k] == Use(fd, k < |mid|);
      }
    }

    lemma {:induction false} TracedOpening(was: seq<Use>, fd: int)
      requires Grown(was, trace, fd, true) && |trace| == FirstDone(|was|) + 1
      ensures Traced(was, fd, true)
      ensures Harmless(trace, |trace| - 1) <==> !Fate(FirstDone(|was|)).Fail?
    {
    }

    // The whole call. It fails exactly when nothing of the descriptor was held
    // and the first read without a signal failed or found the end. Unless its
    // last read failed, m == n and the caller gets the line that unbuffered
    // reading gives; otherwise the line is cut after the m bytes that were read,
    // and nothing that was read is left over (CutAgrees says when that is the
    // whole line all the same). Either way no byte is lost, and other
    // descriptors notice nothing.
    method Call(fd: int, buffer: array<char>, n: nat) returns (ret: int, ghost m: nat)
      requires Valid() && n <= buffer.Length
      modifies this`mem, this`top, this`nodes, this`streams, this`trace, buffer
      ensures Valid() && Traced(old(trace), fd, old(Held(nodes, fd)) == [])
      ensures forall g | g != fd :: Pending(g) == old(Pending(g))
      ensures ret == -1 <==> old(Held(nodes, fd)) == []
                             && (old(Stream(fd)) == [] || Fate(FirstDone(|old(trace)|)).Fail?)
      ensures ret == -1 ==> buffer[..] == old(buffer[..]) && Pending(fd) == old(Pending(fd))
      ensures ret != -1 ==> Served(old(Pending(fd)), m, ret, Pending(fd), old(buffer[..]), buffer[..])
      ensures m <= n && (Quiet(trace, |old(trace)|) ==> m == n)
      ensures !Quiet(trace, |old(trace)|) ==> Pending(fd) == Stream(fd)
    {
      var pre, buf, k := Search(fd);
      HeldThere(nodes, fd);
      ghost var was, anew := trace, buf == NULL;
      if buf == NULL {
        buf := Open(fd);
        if buf == NULL {
          TracedOpening(was, fd);
          return -1, n;
        }
        pre, k := HEADER, 0;  // REPAIR: the program keeps the old tail for pre
      } else {
        NodeAt(nodes, k);
      }
      ghost var mid := trace;
      ret, m := Fill(fd, pre, buf, k, buffer, n);
      TracedOn(was, mid, fd, anew);
    }

    // One call, with a buffer of just the right size.
    method Answer(r: Request) returns (line: seq<char>)
      requires Valid()
      modifies this`mem, this`top, this`nodes, this`streams, this`trace
      ensures Valid() && |old(trace)| <= |trace| && trace[..|old(trace)|] == old(trace)
      ensures forall g | g != r.fd :: Pending(g) == old(Pending(g))
      ensures Quiet(trace, |old(trace)|) ==>
                line == Line(old(Pending(r.fd)), r.n) && Pending(r.fd) == Left(old(Pending(r.fd)), r.n)
    {
      var buffer := new char[r.n];
      var ret, m := Call(r.fd, buffer, r.n);
      line := if ret <= 0 then [] else buffer[..ret];
      if ret == -1 && Quiet(trace, |old(trace)|) { assert Harmless(trace, FirstDone(|old(trace)|)); }
    }

    // Any sequence of calls on any descriptors: unless a read fails that is not
    // made again, each descriptor gets what it would get if it were read alone
    // and unbuffered.
    method Session(rs: seq<Request>) returns (answers: seq<seq<char>>)
      requires Valid()
      modifies this`mem, this`top, this`nodes, this`streams, this`trace
      ensures Valid() && |answers| == |rs| && |old(trace)| <= |trace| && trace[..|old(trace)|] == old(trace)
      ensures Quiet(trace, |old(trace)|) ==>
                forall fd :: Chosen(rs, answers, fd) == Alone(old(Pending(fd)), rs, fd)
    {
      answers := [];
      ghost var done: seq<Request>, from := [], |trace|;
      var todo := rs;
      while todo != []
        invariant done + todo == rs && |answers| == |done| && Valid()
        invariant from <= |trace| && trace[..from] == old(trace)
        invariant Quiet(trace, from) ==>
                    forall fd :: Told(Chosen(done, answers, fd), Pending(fd), todo, fd, Alone(old(Pending(fd)), rs, fd))
        decreases |todo|
      {
        label before:
        var r, rest := todo[0], todo[1..];
        assert todo == [r] + rest;
        ghost var was := trace;
        var line := Answer(r);
        assert trace[..from] == was[..from];
        if Quiet(trace, from) {
          QuietBefore(was, trace, from);
          forall fd ensures Told(Chosen(done + [r], answers + [line], fd), Pending(fd), rest, fd, Alone(old(Pending(fd)), rs, fd)) {
            ToldOneMore(done, answers, r, rest, line, old@before(Pending(fd)), Pending(fd), fd, Alone(old(Pending(fd)), rs, fd));
          }
        }
        answers, done, todo := answers + [line], done + [r], rest;
      }
      assert done == rs;
    }
  }
}
