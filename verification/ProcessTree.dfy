/**
  The process tree of 12-2-print_process_tree.c: an array of nodes linked into
  child lists while the processes are listed in any order, the lists of parents
  that were never listed handed to process 1, and the traversal that prints it.
  A node is named by its pid.
 */
module ProcessTree {

  const MAX_PID := 32768
  const NIL := -1

  datatype Entry = Entry(pid: nat, ppid: nat, ins: string)

  // ------------------------------------------------------------- the forest

  // The parent of x in what was listed, NIL when x was not.
  function Parent(es: seq<Entry>, x: nat): (p: int)
    ensures p >= NIL
  {
    if es == [] then NIL else if es[|es| - 1].pid == x then es[|es| - 1].ppid else Parent(es[..|es| - 1], x)
  }

  function Ins(es: seq<Entry>, x: nat): string {
    if es == [] then "" else if es[|es| - 1].pid == x then es[|es| - 1].ins else Ins(es[..|es| - 1], x)
  }

  // Each process listed once, with a pid and a parent that the array has room
  // for.
  predicate Listing(es: seq<Entry>) {
    es == [] ||
    var e := es[|es| - 1];
    0 < e.pid < MAX_PID && e.ppid < MAX_PID && Parent(es[..|es| - 1], e.pid) == NIL && Listing(es[..|es| - 1])
  }

  // Who hangs under whom: the child list of each process, and for each process
  // whose list it is in (NIL: none).
  datatype Forest = Forest(kids: seq<seq<nat>>, owner: seq<int>)

  // Every process in ks is owned by p, and is there once.
  predicate Owned(ks: seq<nat>, owner: seq<int>, p: nat) {
    ks == [] ||
    (ks[0] < |owner| && owner[ks[0]] == p && ks[0] !in ks[1..] && Owned(ks[1..], owner, p))
  }

  // Each process is in one list at most, its owner's.
  ghost predicate Ok(f: Forest) {
    && |f.kids| == |f.owner| == MAX_PID
    && (forall p | 0 <= p < MAX_PID :: Owned(f.kids[p], f.owner, p))
    && (forall x | 0 <= x < MAX_PID :: InPlace(f, x))
  }

  predicate InPlace(f: Forest, x: nat) {
    x < |f.owner| && NIL <= f.owner[x] < |f.kids| && (f.owner[x] >= 0 ==> x in f.kids[f.owner[x]])
  }

  lemma {:induction false} OwnedIn(ks: seq<nat>, owner: seq<int>, p: nat, x: nat)
    requires Owned(ks, owner, p) && x in ks
    ensures x < |owner| && owner[x] == p
  {
    if x != ks[0] {
      assert x in ks[1..];
      OwnedIn(ks[1..], owner, p, x);
    }
  }

  // The lists encode the owner relation.
  lemma {:induction false} KidsAreOwned(f: Forest, p: nat, x: nat)
    requires Ok(f) && p < MAX_PID && x < MAX_PID
    ensures x in f.kids[p] <==> f.owner[x] == p
  {
    assert Owned(f.kids[p], f.owner, p) && InPlace(f, x);
    if x in f.kids[p] { OwnedIn(f.kids[p], f.owner, p, x); }
  }

  // -------------------------------------------------------- the linked lists

  // Following next from this node gives ks.
  predicate Chain(from: int, next: seq<int>, ks: seq<nat>)
    decreases |ks|
  {
    if ks == [] then from == NIL
    else from == ks[0] && ks[0] < |next| && Chain(next[ks[0]], next, ks[1..])
  }

  // Changing a node leaves the lists that it is not in alone.
  lemma {:induction false} ChainStays(from: int, next: seq<int>, ks: seq<nat>, x: nat, n: int)
    requires Chain(from, next, ks) && x !in ks && x < |next|
    ensures Chain(from, next[x := n], ks)
    decreases |ks|
  {
    if ks != [] {
      assert ks[0] in ks;
      assert forall y | y in ks[1..] :: y in ks;
      ChainStays(next[ks[0]], next, ks[1..], x, n);
    }
  }

  // first[p] is the next field of the dummy node that the list of p starts with.
  ghost predicate Linked(present: seq<bool>, first: seq<int>, next: seq<int>, f: Forest) {
    && |present| == |first| == |next| == |f.kids| == MAX_PID
    && forall p | 0 <= p < MAX_PID :: ListOk(present, first, next, f, p)
  }

  predicate ListOk(present: seq<bool>, first: seq<int>, next: seq<int>, f: Forest, p: nat)
    requires p < |present| && p < |first| && p < |f.kids|
  {
    if present[p] then Chain(first[p], next, f.kids[p]) else f.kids[p] == []
  }

  // The forest with x, which is in no list, at the head of the list of p.
  function Put(f: Forest, x: nat, p: nat): Forest
    requires p < |f.kids| && x < |f.owner|
  {
    Forest(f.kids[p := [x] + f.kids[p]], f.owner[x := p])
  }

  // The forest without the head of the list of p.
  function Cut(f: Forest, p: nat): Forest
    requires p < |f.kids| && f.kids[p] != [] && f.kids[p][0] < |f.owner|
  {
    Forest(f.kids[p := f.kids[p][1..]], f.owner[f.kids[p][0] := NIL])
  }

  lemma {:induction false} PutOk(f: Forest, x: nat, p: nat)
    requires Ok(f) && p < MAX_PID && x < MAX_PID && f.owner[x] == NIL
    ensures Ok(Put(f, x, p))
  {
    var g := Put(f, x, p);
    forall q | 0 <= q < MAX_PID ensures Owned(g.kids[q], g.owner, q) && x !in f.kids[q] {
      KidsAreOwned(f, q, x);
      OwnedStays(f.kids[q], f.owner, q, x, p);
      if q == p { assert g.kids[p][1..] == f.kids[p]; }
    }
    forall y | 0 <= y < MAX_PID ensures InPlace(g, y) { assert InPlace(f, y); }
  }

  lemma {:induction false} OwnedStays(ks: seq<nat>, owner: seq<int>, p: nat, x: nat, o: int)
    requires Owned(ks, owner, p) && x !in ks && x < |owner|
    ensures Owned(ks, owner[x := o], p)
  {
    if ks != [] {
      assert ks[0] in ks;
      assert forall y | y in ks[1..] :: y in ks;
      OwnedStays(ks[1..], owner, p, x, o);
    }
  }

  lemma {:induction false} CutOk(f: Forest, p: nat)
    requires Ok(f) && p < MAX_PID && f.kids[p] != []
    ensures f.kids[p][0] < MAX_PID && Ok(Cut(f, p))
  {
    var x := f.kids[p][0];
    assert Owned(f.kids[p], f.owner, p);
    var g := Cut(f, p);
    forall q | 0 <= q < MAX_PID ensures Owned(g.kids[q], g.owner, q) {
      KidsAreOwned(f, q, x);
      assert Owned(f.kids[q], f.owner, q);
      OwnedStays(g.kids[q], f.owner, q, x, NIL);
    }
    forall y | 0 <= y < MAX_PID ensures InPlace(g, y) { assert InPlace(f, y); }
  }

  lemma {:induction false} PutLinked(present: seq<bool>, first: seq<int>, next: seq<int>, f: Forest, x: nat, p: nat)
    requires Ok(f) && Linked(present, first, next, f) && p < MAX_PID && x < MAX_PID && f.owner[x] == NIL && present[p]
    ensures Linked(present, first[p := x], next[x := first[p]], Put(f, x, p))
  {
    var first1, next1, g := first[p := x], next[x := first[p]], Put(f, x, p);
    forall q | 0 <= q < MAX_PID ensures ListOk(present, first1, next1, g, q) {
      assert ListOk(present, first, next, f, q);
      KidsAreOwned(f, q, x);
      if present[q] { ChainStays(first[q], next, f.kids[q], x, first[p]); }
      if q == p { assert g.kids[p][1..] == f.kids[p]; }
    }
  }

  lemma {:induction false} CutLinked(present: seq<bool>, first: seq<int>, next: seq<int>, f: Forest, p: nat)
    requires Ok(f) && Linked(present, first, next, f) && p < MAX_PID && present[p] && first[p] != NIL
    ensures f.kids[p] != [] && first[p] == f.kids[p][0] && first[p] < MAX_PID
    ensures Linked(present, first[p := next[first[p]]], next, Cut(f, p))
  {
    assert ListOk(present, first, next, f, p);
    var first1, g := first[p := next[first[p]]], Cut(f, p);
    forall q | 0 <= q < MAX_PID ensures ListOk(present, first1, next, g, q) {
      assert ListOk(present, first, next, f, q);
    }
  }

  // ----------------------------------------------------------------- order

  // x comes somewhere before y.
  ghost predicate Precedes(s: seq<nat>, x: nat, y: nat) {
    exists i, j :: 0 <= i < j < |s| && s[i] == x && s[j] == y
  }

  lemma {:induction false} PrecedesAcross(a: seq<nat>, b: seq<nat>, x: nat, y: nat)
    requires x in a && y in b
    ensures Precedes(a + b, x, y)
  {
    var i :| 0 <= i < |a| && a[i] == x;
    var j :| 0 <= j < |b| && b[j] == y;
    assert (a + b)[i] == x && (a + b)[|a| + j] == y;
  }

  lemma {:induction false} PrecedesWithin(u: seq<nat>, s: seq<nat>, v: seq<nat>, x: nat, y: nat)
    requires Precedes(s, x, y)
    ensures Precedes(u + s + v, x, y)
  {
    var i, j :| 0 <= i < j < |s| && s[i] == x && s[j] == y;
    assert (u + s + v)[|u| + i] == x && (u + s + v)[|u| + j] == y;
  }

  // ------------------------------------------------------- what was listed

  // The processes listed with parent p, the latest first.
  function Kids(es: seq<Entry>, p: nat): seq<nat> {
    if es == [] then []
    else if es[|es| - 1].ppid == p then [es[|es| - 1].pid] + Kids(es[..|es| - 1], p)
    else Kids(es[..|es| - 1], p)
  }

  lemma {:induction false} OneMore(es: seq<Entry>, e: Entry, x: nat)
    ensures Parent(es + [e], x) == if e.pid == x then e.ppid else Parent(es, x)
    ensures Ins(es + [e], x) == if e.pid == x then e.ins else Ins(es, x)
    ensures Kids(es + [e], x) == if e.ppid == x then [e.pid] + Kids(es, x) else Kids(es, x)
    ensures Listing(es + [e]) <==>
            0 < e.pid < MAX_PID && e.ppid < MAX_PID && Parent(es, e.pid) == NIL && Listing(es)
  {
    assert (es + [e])[..|es|] == es && (es + [e])[|es|] == e;
  }

  lemma {:induction false} KidsAre(es: seq<Entry>, p: nat, k: nat)
    requires k < |es| && es[k].ppid == p
    ensures es[k].pid in Kids(es, p)
  {
    if k < |es| - 1 { KidsAre(es[..|es| - 1], p, k); }
  }

  // Of two children of one process the one listed later comes first.
  lemma {:induction false} LatestFirst(es: seq<Entry>, p: nat, i: nat, j: nat)
    requires i < j < |es| && es[i].ppid == es[j].ppid == p
    ensures Precedes(Kids(es, p), es[j].pid, es[i].pid)
  {
    var n := |es| - 1;
    if j < n {
      LatestFirst(es[..n], p, i, j);
      if es[n].ppid == p { PrecedesWithin([es[n].pid], Kids(es[..n], p), [], es[j].pid, es[i].pid); }
      assert [es[n].pid] + Kids(es[..n], p) + [] == [es[n].pid] + Kids(es[..n], p);
    } else {
      KidsAre(es[..n], p, i);
      PrecedesAcross([es[j].pid], Kids(es[..n], p), es[j].pid, es[i].pid);
    }
  }

  ghost predicate Built(f: Forest, es: seq<Entry>) {
    && |f.kids| == |f.owner| == MAX_PID
    && (forall p | 0 <= p < MAX_PID :: f.kids[p] == Kids(es, p))
    && (forall x | 0 <= x < MAX_PID :: f.owner[x] == Parent(es, x))
  }

  lemma {:induction false} BuiltPut(f: Forest, es: seq<Entry>, e: Entry)
    requires Built(f, es) && e.pid < MAX_PID && e.ppid < MAX_PID
    ensures Built(Put(f, e.pid, e.ppid), es + [e])
  {
    forall x | 0 <= x < MAX_PID
      ensures Kids(es + [e], x) == if e.ppid == x then [e.pid] + Kids(es, x) else Kids(es, x)
      ensures Parent(es + [e], x) == if e.pid == x then e.ppid else Parent(es, x)
    {
      OneMore(es, e, x);
    }
  }

  // The node of p exists once p was listed, or named as a parent.
  ghost predicate Nodes(es: seq<Entry>, present: seq<bool>, ppid: seq<int>, ins: seq<string>) {
    && |present| == |ppid| == |ins| == MAX_PID
    && forall p | 0 <= p < MAX_PID :: NodeOk(es, present, ppid, ins, p)
  }

  predicate NodeOk(es: seq<Entry>, present: seq<bool>, ppid: seq<int>, ins: seq<string>, p: nat)
    requires p < |present| && p < |ppid| && p < |ins|
  {
    && (present[p] <==> Parent(es, p) != NIL || Kids(es, p) != [])
    && (present[p] ==> ppid[p] == Parent(es, p))
    && (present[p] && ppid[p] != NIL ==> ins[p] == Ins(es, p))
  }

  lemma {:induction false} NewLinked(present: seq<bool>, first: seq<int>, next: seq<int>, f: Forest, p: nat)
    requires Linked(present, first, next, f) && p < MAX_PID && !present[p]
    ensures Linked(present[p := true], first[p := NIL], next, f)
  {
    var present1, first1 := present[p := true], first[p := NIL];
    assert ListOk(present, first, next, f, p);
    forall q | 0 <= q < MAX_PID ensures ListOk(present1, first1, next, f, q) {
      assert ListOk(present, first, next, f, q);
    }
  }

  lemma {:induction false} NodesPut(es: seq<Entry>, e: Entry, present: seq<bool>, ppid: seq<int>, ins: seq<string>,
                                    ppid1: seq<int>, ins1: seq<string>)
    requires Nodes(es, present, ppid, ins) && e.pid < MAX_PID && e.ppid < MAX_PID && Parent(es, e.pid) == NIL
    requires |ppid1| == |ins1| == MAX_PID && ppid1[e.pid] == e.ppid && ins1[e.pid] == e.ins
    requires e.ppid != e.pid ==> ppid1[e.ppid] == if present[e.ppid] then ppid[e.ppid] else NIL
    requires forall q | 0 <= q < MAX_PID && q != e.pid && (q != e.ppid || present[q]) :: ppid1[q] == ppid[q] && ins1[q] == ins[q]
    ensures Nodes(es + [e], present[e.pid := true][e.ppid := true], ppid1, ins1)
  {
    var es1, present1 := es + [e], present[e.pid := true][e.ppid := true];
    forall q | 0 <= q < MAX_PID ensures NodeOk(es1, present1, ppid1, ins1, q) {
      assert NodeOk(es, present, ppid, ins, q);
      OneMore(es, e, q);
    }
  }

  // ------------------------------------------------------------- adoption

  function Reversed(s: seq<nat>): seq<nat> {
    if s == [] then [] else [s[|s| - 1]] + Reversed(s[..|s| - 1])
  }

  lemma {:induction false} ReversedPrecedes(s: seq<nat>, x: nat, y: nat)
    requires Precedes(s, x, y)
    ensures Precedes(Reversed(s), y, x)
  {
    var n := |s| - 1;
    var i, j :| 0 <= i < j < |s| && s[i] == x && s[j] == y;
    if j < n {
      assert s[..n][i] == x && s[..n][j] == y;
      ReversedPrecedes(s[..n], x, y);
      PrecedesWithin([s[n]], Reversed(s[..n]), [], y, x);
      assert [s[n]] + Reversed(s[..n]) + [] == [s[n]] + Reversed(s[..n]);
    } else {
      ReversedHas(s[..n], x);
      assert s[..n][i] == x;
      PrecedesAcross([s[n]], Reversed(s[..n]), y, x);
    }
  }

  lemma {:induction false} ReversedHas(s: seq<nat>, x: nat)
    ensures x in Reversed(s) <==> x in s
  {
    if s != [] {
      ReversedHas(s[..|s| - 1], x);
      assert s == s[..|s| - 1] + [s[|s| - 1]];
    }
  }

  // The list of process 1 when those before i that were never listed have lost
  // their children to it.
  function Adopted(es: seq<Entry>, i: nat): seq<nat> {
    if i <= 1 then Kids(es, 1)
    else if Parent(es, i - 1) == NIL then Reversed(Kids(es, i - 1)) + Adopted(es, i - 1)
    else Adopted(es, i - 1)
  }

  // What process 1 comes to have: x is its own child or that of a process q
  // below i which was never listed.
  predicate Comes(es: seq<Entry>, i: nat, x: Entry, q: nat) {
    x in es && x.ppid == q && (q == 1 || (1 < q < i && Parent(es, q) == NIL))
  }

  lemma {:induction false} AdoptedHas(es: seq<Entry>, i: nat, x: Entry, q: nat)
    requires Comes(es, i, x, q)
    ensures x.pid in Adopted(es, i)
  {
    var k :| 0 <= k < |es| && es[k] == x;
    KidsAre(es, q, k);
    ReversedHas(Kids(es, q), x.pid);
    if i > 1 && !(q == i - 1 && Parent(es, q) == NIL) { AdoptedHas(es, i - 1, x, q); }
  }

  // The children of a later parent come before those of an earlier one, and
  // those that were process 1's from the start come last.
  lemma {:induction false} LaterParentFirst(es: seq<Entry>, i: nat, x: Entry, q: nat, y: Entry, r: nat)
    requires Comes(es, i, x, q) && Comes(es, i, y, r) && q > r
    ensures Precedes(Adopted(es, i), x.pid, y.pid)
  {
    var before := Adopted(es, i - 1);
    if q == i - 1 {
      var k :| 0 <= k < |es| && es[k] == x;
      KidsAre(es, q, k);
      ReversedHas(Kids(es, q), x.pid);
      AdoptedHas(es, i - 1, y, r);
      PrecedesAcross(Reversed(Kids(es, q)), before, x.pid, y.pid);
    } else {
      LaterParentFirst(es, i - 1, x, q, y, r);
      AdoptedMore(es, i, x.pid, y.pid);
    }
  }

  lemma {:induction false} AdoptedMore(es: seq<Entry>, i: nat, x: nat, y: nat)
    requires i > 1 && Precedes(Adopted(es, i - 1), x, y)
    ensures Precedes(Adopted(es, i), x, y)
  {
    if Parent(es, i - 1) == NIL {
      var moved, before := Reversed(Kids(es, i - 1)), Adopted(es, i - 1);
      PrecedesWithin(moved, before, [], x, y);
      assert moved + before + [] == moved + before;
    }
  }

  // Those of one parent were turned round on the way: the first listed first.
  lemma {:induction false} FirstListedFirst(es: seq<Entry>, i: nat, q: nat, j: nat, k: nat)
    requires 1 < q < i && Parent(es, q) == NIL && j < k < |es| && es[j].ppid == es[k].ppid == q
    ensures Precedes(Adopted(es, i), es[j].pid, es[k].pid)
  {
    if q == i - 1 {
      LatestFirst(es, q, j, k);
      ReversedPrecedes(Kids(es, q), es[k].pid, es[j].pid);
      var moved, before := Reversed(Kids(es, q)), Adopted(es, q);
      PrecedesWithin([], moved, before, es[j].pid, es[k].pid);
      assert [] + moved + before == moved + before;
    } else {
      FirstListedFirst(es, i - 1, q, j, k);
      AdoptedMore(es, i, es[j].pid, es[k].pid);
    }
  }

  // Process 1's own children stay in their order.
  lemma {:induction false} OwnChildren(es: seq<Entry>, i: nat, j: nat, k: nat)
    requires i >= 1 && j < k < |es| && es[j].ppid == es[k].ppid == 1
    ensures Precedes(Adopted(es, i), es[k].pid, es[j].pid)
  {
    LatestFirst(es, 1, j, k);
    if i > 1 {
      OwnChildren(es, i - 1, j, k);
      AdoptedMore(es, i, es[k].pid, es[j].pid);
    }
  }

  function StageKids(es: seq<Entry>, i: nat, p: nat): seq<nat> {
    if p == 1 then Adopted(es, i) else if 1 <= p < i && Parent(es, p) == NIL then [] else Kids(es, p)
  }

  function StageOwner(es: seq<Entry>, i: nat, x: nat): int {
    var p := Parent(es, x);
    if 1 <= p < i && Parent(es, p) == NIL then 1 else p
  }

  ghost predicate Stage(f: Forest, es: seq<Entry>, i: nat) {
    && |f.kids| == |f.owner| == MAX_PID
    && (forall p | 0 <= p < MAX_PID :: f.kids[p] == StageKids(es, i, p))
    && (forall x | 0 <= x < MAX_PID :: f.owner[x] == StageOwner(es, i, x))
  }

  // The forest in the end.
  function Final(es: seq<Entry>): Forest {
    Forest(seq(MAX_PID, p requires 0 <= p => StageKids(es, MAX_PID, p)),
           seq(MAX_PID, x requires 0 <= x => StageOwner(es, MAX_PID, x)))
  }

  lemma {:induction false} FinalStage(f: Forest, es: seq<Entry>)
    requires Stage(f, es, MAX_PID)
    ensures f == Final(es)
  {
    assert f.kids == Final(es).kids && f.owner == Final(es).owner;
  }

  // The children of i in moved are with process 1 now.
  ghost predicate Moving(f: Forest, es: seq<Entry>, i: nat, moved: seq<nat>) {
    && 1 < i < MAX_PID == |f.kids| == |f.owner|
    && (forall p | 0 <= p < MAX_PID && p != i && p != 1 :: f.kids[p] == StageKids(es, i, p))
    && moved + f.kids[i] == Kids(es, i) && f.kids[1] == Reversed(moved) + Adopted(es, i)
    && (forall x | 0 <= x < MAX_PID :: f.owner[x] == if x in moved then 1 else StageOwner(es, i, x))
    && (forall x | x in moved :: Parent(es, x) == i)
  }

  lemma {:induction false} StartMoving(f: Forest, es: seq<Entry>, i: nat)
    requires Stage(f, es, i) && 1 < i < MAX_PID
    ensures Moving(f, es, i, [])
  {
    assert [] + f.kids[i] == f.kids[i] && Reversed([]) + Adopted(es, i) == Adopted(es, i);
  }

  lemma {:induction false} MoveOne(f: Forest, es: seq<Entry>, i: nat, moved: seq<nat>)
    requires Ok(f) && Moving(f, es, i, moved) && f.kids[i] != [] && f.kids[i][0] < MAX_PID
    ensures Moving(Put(Cut(f, i), f.kids[i][0], 1), es, i, moved + [f.kids[i][0]])
  {
    var x, g := f.kids[i][0], Put(Cut(f, i), f.kids[i][0], 1);
    KidsAreOwned(f, i, x);
    assert g.kids[i] == f.kids[i][1..] && moved + [x] + g.kids[i] == moved + f.kids[i];
    assert (moved + [x])[..|moved|] == moved;
    assert Reversed(moved + [x]) + Adopted(es, i) == [x] + f.kids[1];
  }

  lemma {:induction false} AllMoved(f: Forest, es: seq<Entry>, i: nat, moved: seq<nat>)
    requires Ok(f) && Moving(f, es, i, moved) && f.kids[i] == [] && Parent(es, i) == NIL
    ensures Stage(f, es, i + 1)
  {
    assert moved == moved + f.kids[i] == Kids(es, i);
    forall x | 0 <= x < MAX_PID ensures f.owner[x] == StageOwner(es, i + 1, x) {
      KidsAreOwned(f, i, x);
    }
  }

  // Nothing to do for a process that was listed.
  lemma {:induction false} StageSkips(f: Forest, es: seq<Entry>, i: nat)
    requires Stage(f, es, i) && i >= 1 && (Parent(es, i) != NIL || Kids(es, i) == [])
    requires Ok(f) && i < MAX_PID && Parent(es, 1) != NIL
    ensures Stage(f, es, i + 1)
  {
    forall x | 0 <= x < MAX_PID ensures f.owner[x] == StageOwner(es, i + 1, x) {
      KidsAreOwned(f, i, x);
    }
    assert Reversed([]) + Adopted(es, i) == Adopted(es, i);
  }

  // Process 1 has to be listed. At i == 1 the loop of lines 125 to 130 takes the
  // first child of 1 off its list and puts it back: k rounds of that, on the
  // pointers. A round is made only while there is a child.
  function Rounds(first: seq<int>, next: seq<int>, k: nat): (seq<int>, seq<int>)
    requires |first| == |next| == MAX_PID
    ensures |Rounds(first, next, k).0| == |Rounds(first, next, k).1| == MAX_PID
  {
    if k == 0 then (first, next)
    else
      var (f1, n1) := Rounds(first, next, k - 1);
      var tmp := f1[1];
      if !(0 <= tmp < MAX_PID) then (f1, n1)
      else
        var f2 := f1[1 := n1[tmp]];
        (f2[1 := tmp], n1[tmp := f2[1]])
  }

  lemma {:induction false} RoundsStandStill(first: seq<int>, next: seq<int>, k: nat)
    requires |first| == |next| == MAX_PID
    ensures Rounds(first, next, k) == (first, next)
  {
    if k > 0 {
      RoundsStandStill(first, next, k - 1);
      var tmp := first[1];
      if 0 <= tmp < MAX_PID {
        assert first[1 := next[tmp]][1] == next[tmp];
        assert first[1 := next[tmp]][1 := tmp] == first && next[tmp := next[tmp]] == next;
      }
    }
  }

  // Lines 122 to 131 at i == 1 come to an end.
  ghost predicate FirstRoundEnds(present: seq<bool>, ppid: seq<int>, first: seq<int>, next: seq<int>)
    requires |present| == |ppid| == |first| == |next| == MAX_PID
  {
    present[1] && ppid[1] == NIL ==> exists k :: Rounds(first, next, k).0[1] == NIL
  }

  // They do if and only if process 1 was listed, or no process has it for a
  // parent.
  lemma {:induction false} AdoptingItself(es: seq<Entry>, f: Forest, present: seq<bool>, ppid: seq<int>, ins: seq<string>,
                                          first: seq<int>, next: seq<int>)
    requires Built(f, es) && Nodes(es, present, ppid, ins) && Linked(present, first, next, f)
    ensures FirstRoundEnds(present, ppid, first, next) <==> Parent(es, 1) != NIL || Kids(es, 1) == []
  {
    assert NodeOk(es, present, ppid, ins, 1) && ListOk(present, first, next, f, 1);
    forall k: nat ensures Rounds(first, next, k).0 == first { RoundsStandStill(first, next, k); }
    assert Rounds(first, next, 0).0 == first;
    assert f.kids[1] == Kids(es, 1);
  }

  // In the end the lists are exactly the parent relation, with the children of
  // those never listed under process 1; each process is in one list, once.
  lemma {:induction false} FinalLists(f: Forest, es: seq<Entry>, p: nat, x: nat)
    requires Ok(f) && Stage(f, es, MAX_PID) && p < MAX_PID && x < MAX_PID
    ensures x in f.kids[p] <==>
            Parent(es, x) != NIL && p == if Parent(es, x) == 0 || Parent(es, Parent(es, x)) != NIL || Parent(es, x) >= MAX_PID
                                         then Parent(es, x) else 1
    ensures x in f.kids[p] ==> multiset(f.kids[p])[x] == 1
  {
    KidsAreOwned(f, p, x);
    assert Owned(f.kids[p], f.owner, p);
    if x in f.kids[p] { OwnedOnce(f.kids[p], f.owner, p, x); }
  }

  // Whose list a child of p is in at the end.
  function Home(es: seq<Entry>, p: nat): nat {
    if p > 0 && Parent(es, p) == NIL then 1 else p
  }

  // In that list entry j goes before entry k: latest first under a parent of
  // their own, first listed first under an unlisted one, and the children of
  // unlisted parents from the last parent to the first, before all others.
  predicate GoesBefore(es: seq<Entry>, j: nat, k: nat)
    requires j < |es| && k < |es|
  {
    var p, q := es[j].ppid, es[k].ppid;
    Home(es, p) == Home(es, q) && if p != q then p > q else if Home(es, p) == p then j > k else j < k
  }

  lemma {:induction false} ListsInOrder(f: Forest, es: seq<Entry>, j: nat, k: nat)
    requires Stage(f, es, MAX_PID) && Parent(es, 1) != NIL && j < |es| && k < |es|
    requires es[j].ppid < MAX_PID && es[k].ppid < MAX_PID && GoesBefore(es, j, k)
    ensures Home(es, es[j].ppid) < MAX_PID
    ensures Precedes(f.kids[Home(es, es[j].ppid)], es[j].pid, es[k].pid)
  {
    var p, q := es[j].ppid, es[k].ppid;
    assert f.kids[Home(es, p)] == StageKids(es, MAX_PID, Home(es, p));
    if p != q {
      LaterParentFirst(es, MAX_PID, es[j], p, es[k], q);
    } else if Home(es, p) != p {
      FirstListedFirst(es, MAX_PID, p, j, k);
    } else if p == 1 {
      OwnChildren(es, MAX_PID, k, j);
    } else {
      LatestFirst(es, p, k, j);
    }
  }

  lemma {:induction false} OwnedOnce(ks: seq<nat>, owner: seq<int>, p: nat, x: nat)
    requires Owned(ks, owner, p) && x in ks
    ensures multiset(ks)[x] == 1
  {
    assert ks == [ks[0]] + ks[1..];
    if x in ks[1..] {
      OwnedOnce(ks[1..], owner, p, x);
    } else {
      assert x !in multiset(ks[1..]);
    }
  }

  // ---------------------------------------------------------- the traversal

  function Height(d: seq<nat>): (h: nat)
    ensures forall x | 0 <= x < |d| :: d[x] < h
  {
    if d == [] then 0
    else
      var h := Height(d[..|d| - 1]);
      if d[|d| - 1] < h then h else d[|d| - 1] + 1
  }

  // d grows downwards.
  ghost predicate Ranked(f: Forest, d: seq<nat>) {
    Ok(f) && |d| == MAX_PID && forall x | 0 <= x < MAX_PID :: Deeper(f, d, x)
  }

  ghost predicate Deeper(f: Forest, d: seq<nat>, x: nat)
    requires x < |f.owner| && x < |d|
  {
    f.owner[x] >= 0 ==> f.owner[x] < |d| && d[f.owner[x]] < d[x]
  }

  // The order in which print_tree visits what hangs under p.
  ghost function Visits(f: Forest, d: seq<nat>, p: nat): seq<nat>
    requires Ranked(f, d) && p < MAX_PID
    decreases Height(d) - d[p], 1, 0
  {
    assert Owned(f.kids[p], f.owner, p);
    [p] + VisitsAll(f, d, p, f.kids[p])
  }

  ghost function VisitsAll(f: Forest, d: seq<nat>, p: nat, ks: seq<nat>): seq<nat>
    requires Ranked(f, d) && p < MAX_PID && Owned(ks, f.owner, p)
    decreases Height(d) - d[p], 0, |ks|
  {
    if ks == [] then []
    else
      assert Deeper(f, d, ks[0]);
      Visits(f, d, ks[0]) + VisitsAll(f, d, p, ks[1..])
  }

  // x is p or hangs under it.
  ghost predicate Under(f: Forest, d: seq<nat>, p: nat, x: nat)
    requires Ranked(f, d) && x < MAX_PID
    decreases d[x]
  {
    assert Deeper(f, d, x);
    x == p || (f.owner[x] >= 0 && Under(f, d, p, f.owner[x]))
  }

  lemma {:induction false} UnderIsDeeper(f: Forest, d: seq<nat>, p: nat, x: nat)
    requires Ranked(f, d) && x < MAX_PID && Under(f, d, p, x)
    ensures p < MAX_PID && d[p] <= d[x]
    decreases d[x]
  {
    assert Deeper(f, d, x);
    if x != p { UnderIsDeeper(f, d, p, f.owner[x]); }
  }

  // Nothing hangs under two siblings.
  lemma {:induction false} Siblings(f: Forest, d: seq<nat>, j: nat, k: nat, x: nat)
    requires Ranked(f, d) && x < MAX_PID && j < MAX_PID && k < MAX_PID
    requires j != k && f.owner[j] == f.owner[k] >= 0
    ensures !(Under(f, d, j, x) && Under(f, d, k, x))
    decreases d[x]
  {
    assert Deeper(f, d, x) && Deeper(f, d, j) && Deeper(f, d, k);
    if Under(f, d, j, x) && Under(f, d, k, x) {
      if x == j {
        UnderIsDeeper(f, d, k, f.owner[j]);
      } else if x == k {
        UnderIsDeeper(f, d, j, f.owner[k]);
      } else {
        Siblings(f, d, j, k, f.owner[x]);
      }
    }
  }

  ghost predicate UnderAny(f: Forest, d: seq<nat>, ks: seq<nat>, x: nat)
    requires Ranked(f, d) && x < MAX_PID
  {
    ks != [] && (Under(f, d, ks[0], x) || UnderAny(f, d, ks[1..], x))
  }

  lemma {:induction false} UnderAnyIs(f: Forest, d: seq<nat>, ks: seq<nat>, x: nat)
    requires Ranked(f, d) && x < MAX_PID
    ensures UnderAny(f, d, ks, x) <==> exists k :: k in ks && Under(f, d, k, x)
  {
    if ks != [] {
      UnderAnyIs(f, d, ks[1..], x);
      if UnderAny(f, d, ks[1..], x) {
        var k :| k in ks[1..] && Under(f, d, k, x);
        assert k in ks;
      }
      assert forall k | k in ks :: k == ks[0] || k in ks[1..];
      assert Under(f, d, ks[0], x) ==> ks[0] in ks;
    }
  }

  // What hangs under p is p and what hangs under its children.
  lemma {:induction false} UnderKids(f: Forest, d: seq<nat>, p: nat, x: nat)
    requires Ranked(f, d) && x < MAX_PID && p < MAX_PID
    ensures Under(f, d, p, x) <==> x == p || UnderAny(f, d, f.kids[p], x)
    ensures UnderAny(f, d, f.kids[p], x) ==> x != p
    decreases d[x]
  {
    assert Deeper(f, d, x);
    UnderAnyIs(f, d, f.kids[p], x);
    KidsAreOwned(f, p, x);
    if f.owner[x] >= 0 {
      var o := f.owner[x];
      UnderKids(f, d, p, o);
      UnderAnyIs(f, d, f.kids[p], o);
      if x == p && UnderAny(f, d, f.kids[p], x) {
        var k :| k in f.kids[p] && Under(f, d, k, x);
        assert Owned(f.kids[p], f.owner, p);
        OwnedIn(f.kids[p], f.owner, p, k);
        assert Deeper(f, d, k);
        UnderIsDeeper(f, d, k, x);
      }
    }
  }

  lemma {:induction false} VisitsOnce(f: Forest, d: seq<nat>, p: nat, x: nat)
    requires Ranked(f, d) && p < MAX_PID && x < MAX_PID
    ensures multiset(Visits(f, d, p))[x] == if Under(f, d, p, x) then 1 else 0
    decreases Height(d) - d[p], 1, 0
  {
    assert Owned(f.kids[p], f.owner, p);
    VisitsAllOnce(f, d, p, f.kids[p], x);
    UnderKids(f, d, p, x);
  }

  lemma {:induction false} VisitsAllOnce(f: Forest, d: seq<nat>, p: nat, ks: seq<nat>, x: nat)
    requires Ranked(f, d) && p < MAX_PID && x < MAX_PID && Owned(ks, f.owner, p)
    ensures multiset(VisitsAll(f, d, p, ks))[x] == if UnderAny(f, d, ks, x) then 1 else 0
    decreases Height(d) - d[p], 0, |ks|
  {
    if ks != [] {
      assert Deeper(f, d, ks[0]);
      VisitsOnce(f, d, ks[0], x);
      VisitsAllOnce(f, d, p, ks[1..], x);
      if Under(f, d, ks[0], x) && UnderAny(f, d, ks[1..], x) {
        UnderAnyIs(f, d, ks[1..], x);
        var k :| k in ks[1..] && Under(f, d, k, x);
        OwnedIn(ks[1..], f.owner, p, k);
        Siblings(f, d, ks[0], k, x);
      }
    }
  }

  // -------------------------------------------------------------- the order

  lemma {:induction false} VisitsHas(f: Forest, d: seq<nat>, p: nat, x: nat)
    requires Ranked(f, d) && p < MAX_PID && x < MAX_PID
    ensures x in Visits(f, d, p) <==> Under(f, d, p, x)
  {
    VisitsOnce(f, d, p, x);
  }

  // A process comes before all that hangs under it.
  lemma {:induction false} ParentFirst(f: Forest, d: seq<nat>, p: nat, x: nat)
    requires Ranked(f, d) && p < MAX_PID && x < MAX_PID && x != p && Under(f, d, p, x)
    ensures Precedes(Visits(f, d, p), p, x)
  {
    VisitsHas(f, d, p, x);
    assert Owned(f.kids[p], f.owner, p);
    PrecedesAcross([p], VisitsAll(f, d, p, f.kids[p]), p, x);
  }

  // Of two children, all under the one that is first in the list comes first.
  lemma {:induction false} SiblingsApart(f: Forest, d: seq<nat>, p: nat, ks: seq<nat>, i: nat, j: nat, x: nat, y: nat)
    requires Ranked(f, d) && p < MAX_PID && Owned(ks, f.owner, p) && i < j < |ks|
    requires x < MAX_PID && y < MAX_PID && Under(f, d, ks[i], x) && Under(f, d, ks[j], y)
    ensures Precedes(VisitsAll(f, d, p, ks), x, y)
    decreases i
  {
    assert Deeper(f, d, ks[0]);
    var first, others := Visits(f, d, ks[0]), VisitsAll(f, d, p, ks[1..]);
    if i == 0 {
      VisitsHas(f, d, ks[0], x);
      VisitsAllOnce(f, d, p, ks[1..], y);
      UnderAnyIs(f, d, ks[1..], y);
      assert ks[1..][j - 1] in ks[1..];
      assert y in multiset(others);
      PrecedesAcross(first, others, x, y);
    } else {
      SiblingsApart(f, d, p, ks[1..], i - 1, j - 1, x, y);
      PrecedesWithin(first, others, [], x, y);
      assert first + others + [] == first + others;
    }
  }

  // What is visited under a child is visited so under its parent.
  lemma {:induction false} AmongAllVisits(f: Forest, d: seq<nat>, p: nat, ks: seq<nat>, k: nat, x: nat, y: nat)
    requires Ranked(f, d) && p < MAX_PID && Owned(ks, f.owner, p) && k in ks && k < MAX_PID
    requires Precedes(Visits(f, d, k), x, y)
    ensures Precedes(VisitsAll(f, d, p, ks), x, y)
  {
    assert Deeper(f, d, ks[0]);
    var first, others := Visits(f, d, ks[0]), VisitsAll(f, d, p, ks[1..]);
    if k == ks[0] {
      PrecedesWithin([], first, others, x, y);
      assert [] + first + others == first + others;
    } else {
      AmongAllVisits(f, d, p, ks[1..], k, x, y);
      PrecedesWithin(first, others, [], x, y);
      assert first + others + [] == first + others;
    }
  }

  lemma {:induction false} AmongVisits(f: Forest, d: seq<nat>, r: nat, p: nat, x: nat, y: nat)
    requires Ranked(f, d) && r < MAX_PID && p < MAX_PID && Under(f, d, r, p) && Precedes(Visits(f, d, p), x, y)
    ensures Precedes(Visits(f, d, r), x, y)
    decreases d[p]
  {
    if p != r {
      assert Deeper(f, d, p);
      var o := f.owner[p];
      KidsAreOwned(f, o, p);
      assert Owned(f.kids[o], f.owner, o);
      AmongAllVisits(f, d, o, f.kids[o], p, x, y);
      var all := VisitsAll(f, d, o, f.kids[o]);
      PrecedesWithin([o], all, [], x, y);
      assert [o] + all + [] == [o] + all;
      AmongVisits(f, d, r, o, x, y);
    }
  }

  // Preorder, in terms of places alone: each process once, before all that
  // hangs under it, and siblings with all that is theirs in the order of their
  // list.
  ghost predicate Preorder(f: Forest, d: seq<nat>, r: nat, order: seq<nat>)
    requires Ranked(f, d)
  {
    && (forall x | 0 <= x < MAX_PID :: multiset(order)[x] == if Under(f, d, r, x) then 1 else 0)
    && (forall p, x | ParentOf(f, d, r, p, x) :: Precedes(order, p, x))
    && (forall x, y | SiblingOf(f, d, r, x, y) :: Precedes(order, x, y))
  }

  ghost predicate ParentOf(f: Forest, d: seq<nat>, r: nat, p: nat, x: nat)
    requires Ranked(f, d)
  {
    p < MAX_PID && x < MAX_PID && x != p && Under(f, d, r, p) && Under(f, d, p, x)
  }

  // x and y hang under two children of a process under r, x under the earlier.
  ghost predicate SiblingOf(f: Forest, d: seq<nat>, r: nat, x: nat, y: nat)
    requires Ranked(f, d)
  {
    x < MAX_PID && y < MAX_PID
    && exists p: nat, i, j :: p < MAX_PID && Under(f, d, r, p) && 0 <= i < j < |f.kids[p]|
                              && Under(f, d, f.kids[p][i], x) && Under(f, d, f.kids[p][j], y)
  }

  lemma {:induction false} VisitsInPreorder(f: Forest, d: seq<nat>, r: nat)
    requires Ranked(f, d) && r < MAX_PID
    ensures Preorder(f, d, r, Visits(f, d, r)) && Visits(f, d, r)[0] == r
  {
    var order: seq<nat> := Visits(f, d, r);
    forall x: nat | x < MAX_PID ensures multiset(order)[x] == if Under(f, d, r, x) then 1 else 0 {
      VisitsOnce(f, d, r, x);
    }
    forall p, x | ParentOf(f, d, r, p, x) ensures Precedes(order, p, x) {
      ParentFirst(f, d, p, x);
      AmongVisits(f, d, r, p, p, x);
    }
    forall x, y | SiblingOf(f, d, r, x, y) ensures Precedes(order, x, y) {
      var p: nat, i, j :| p < MAX_PID && Under(f, d, r, p) && 0 <= i < j < |f.kids[p]|
                          && Under(f, d, f.kids[p][i], x) && Under(f, d, f.kids[p][j], y);
      SiblingsInOrder(f, d, p, i, j, x, y);
      AmongVisits(f, d, r, p, x, y);
    }
  }

  lemma {:induction false} SiblingsInOrder(f: Forest, d: seq<nat>, p: nat, i: nat, j: nat, x: nat, y: nat)
    requires Ranked(f, d) && p < MAX_PID && x < MAX_PID && y < MAX_PID && i < j < |f.kids[p]|
    requires Under(f, d, f.kids[p][i], x) && Under(f, d, f.kids[p][j], y)
    ensures Precedes(Visits(f, d, p), x, y)
  {
    assert Owned(f.kids[p], f.owner, p);
    SiblingsApart(f, d, p, f.kids[p], i, j, x, y);
    var all := VisitsAll(f, d, p, f.kids[p]);
    PrecedesWithin([p], all, [], x, y);
    assert [p] + all + [] == [p] + all;
  }

  // The parent relation that was listed has no cycle: rank shows it.
  ghost predicate Acyclic(es: seq<Entry>, rank: seq<nat>) {
    |rank| == MAX_PID
    && forall x: nat | x < MAX_PID && 0 <= Parent(es, x) < MAX_PID :: rank[Parent(es, x)] < rank[x]
  }

  // Where the chain of parents of x ends, at a process that was not listed.
  ghost function Top(es: seq<Entry>, rank: seq<nat>, x: nat): (p: nat)
    requires Acyclic(es, rank) && x < MAX_PID
    ensures p < MAX_PID
    decreases rank[x]
  {
    if 0 <= Parent(es, x) < MAX_PID then Top(es, rank, Parent(es, x)) else x
  }

  lemma {:induction false} ParentBelow(es: seq<Entry>, x: nat)
    requires Listing(es)
    ensures Parent(es, x) < MAX_PID
  {
    if es != [] { ParentBelow(es[..|es| - 1], x); }
  }

  // What hangs under 0 keeps its rank; all else comes below process 1.
  ghost function Depths(es: seq<Entry>, rank: seq<nat>): seq<nat>
    requires Acyclic(es, rank)
  {
    seq(|rank|, x requires 0 <= x < |rank| && Acyclic(es, rank) =>
      if Top(es, rank, x) == 0 then rank[x] else Height(rank) + rank[x])
  }

  lemma {:induction false} DepthsGrow(es: seq<Entry>, rank: seq<nat>, x: nat)
    requires Listing(es) && Acyclic(es, rank) && Top(es, rank, 1) == 0 && x < MAX_PID
    ensures var o := StageOwner(es, MAX_PID, x);
            o != NIL ==> 0 <= o < MAX_PID && Depths(es, rank)[o] < Depths(es, rank)[x]
  {
    ParentBelow(es, x);
    var p := Parent(es, x);
    if p != NIL {
      assert Top(es, rank, x) == Top(es, rank, p) && rank[p] < rank[x];
      if Parent(es, p) == NIL { assert Top(es, rank, p) == p; } else { ParentBelow(es, p); }
      assert rank[1] < Height(rank);
    }
  }

  // The final forest has no cycle either, if the chain of parents of process 1
  // ends at 0.
  lemma {:induction false} FinalRanked(f: Forest, es: seq<Entry>, rank: seq<nat>)
    requires Ok(f) && Stage(f, es, MAX_PID) && Listing(es) && Acyclic(es, rank) && Top(es, rank, 1) == 0
    ensures Ranked(f, Depths(es, rank))
  {
    var d := Depths(es, rank);
    NoZero(es);
    forall x | 0 <= x < MAX_PID ensures Deeper(f, d, x) {
      assert InPlace(f, x);
      DepthsGrow(es, rank, x);
    }
  }

  // If it ends anywhere else, process 1 comes to hang under itself.
  lemma {:induction false} BelowOne(f: Forest, es: seq<Entry>, rank: seq<nat>, d: seq<nat>, x: nat)
    requires Ok(f) && Stage(f, es, MAX_PID) && Listing(es) && Acyclic(es, rank) && Ranked(f, d)
    requires x < MAX_PID && Parent(es, x) != NIL && Top(es, rank, x) != 0
    ensures d[1] < d[x]
    decreases rank[x]
  {
    ParentBelow(es, x);
    assert Deeper(f, d, x);
    var p := Parent(es, x);
    if Parent(es, p) != NIL { BelowOne(f, es, rank, d, p); } else { NoZero(es); ParentBelow(es, p); }
  }

  // So, when process 1 was listed, the traversal has an end if and only if the
  // chain of parents of 1 ends at 0.
  lemma {:induction false} RankedExactly(f: Forest, es: seq<Entry>, rank: seq<nat>)
    requires Ok(f) && Stage(f, es, MAX_PID) && Listing(es) && Acyclic(es, rank) && Parent(es, 1) != NIL
    ensures (exists d :: Ranked(f, d)) <==> Top(es, rank, 1) == 0
  {
    if Top(es, rank, 1) == 0 {
      FinalRanked(f, es, rank);
    } else if d :| Ranked(f, d) {
      BelowOne(f, es, rank, d, 1);
    }
  }

  lemma {:induction false} NoZero(es: seq<Entry>)
    requires Listing(es)
    ensures Parent(es, 0) == NIL
  {
    if es != [] { NoZero(es[..|es| - 1]); }
  }

  class Table {
    var present: array<bool>  // process[p] is not NULL
    var ppid: array<int>
    var ins: array<string>
    var first: array<int>     // process[p]->child->next
    var next: array<int>
    ghost var es: seq<Entry>  // what was listed, without repetitions
    ghost var f: Forest

    ghost predicate Shape()
      reads this
    {
      && present.Length == ppid.Length == ins.Length == first.Length == next.Length == MAX_PID
      && first != ppid && first != next && ppid != next
    }

    ghost predicate Valid()
      reads this, present, ppid, ins, first, next
    {
      && Shape() && Listing(es) && Ok(f)
      && Linked(present[..], first[..], next[..], f) && Nodes(es, present[..], ppid[..], ins[..])
    }

    constructor ()
      ensures Valid() && es == [] && Built(f, [])
      ensures fresh(present) && fresh(ppid) && fresh(ins) && fresh(first) && fresh(next)
    {
      present := new bool[MAX_PID](_ => false);
      ppid := new int[MAX_PID](_ => NIL);
      ins := new string[MAX_PID](_ => "");
      first := new int[MAX_PID](_ => NIL);
      next := new int[MAX_PID](_ => NIL);
      es, f := [], Forest(seq(MAX_PID, _ => []), seq(MAX_PID, _ => NIL));
    }

    // Lines 30 to 33, and 40 to 44: a node with an empty list.
    method NewNode(p: nat)
      requires Shape() && p < MAX_PID && !present[p] && Linked(present[..], first[..], next[..], f)
      modifies present, first
      ensures Linked(present[..], first[..], next[..], f)
      ensures present[..] == old(present[..])[p := true]
    {
      NewLinked(present[..], first[..], next[..], f, p);
      ghost var present1, first1 := present[..][p := true], first[..][p := NIL];
      present[p] := true;
      first[p] := NIL;
      assert present[..] == present1 && first[..] == first1;
    }

    // Lines 47 and 48.
    method Push(x: nat, p: nat)
      requires Shape() && p < MAX_PID && x < MAX_PID && present[p] && Ok(f) && f.owner[x] == NIL
      requires Linked(present[..], first[..], next[..], f)
      modifies this`f, first, next
      ensures f == Put(old(f), x, p) && Ok(f) && Linked(present[..], first[..], next[..], f)
    {
      PutLinked(present[..], first[..], next[..], f, x, p);
      PutOk(f, x, p);
      ghost var first1, next1 := first[..][p := x], next[..][x := first[p]];
      next[x] := first[p];
      first[p] := x;
      assert first[..] == first1 && next[..] == next1;
      f := Put(f, x, p);
    }

    // Lines 28 to 46: the nodes of the process and of its parent.
    method Fill(pid: nat, pp: nat, name: string)
      requires Shape() && pid < MAX_PID && pp < MAX_PID && Parent(es, pid) == NIL
      requires Linked(present[..], first[..], next[..], f) && Nodes(es, present[..], ppid[..], ins[..])
      modifies present, ppid, ins, first
      ensures Linked(present[..], first[..], next[..], f) && present[pp]
      ensures Nodes(es + [Entry(pid, pp, name)], present[..], ppid[..], ins[..])
    {
      ghost var p0, q0, i0 := present[..], ppid[..], ins[..];
      if !present[pid] { NewNode(pid); }
      ppid[pid] := pp;
      ins[pid] := name;
      if !present[pp] {
        NewNode(pp);
        ppid[pp] := NIL;
        ins[pp] := "";
      }
      assert present[..] == p0[pid := true][pp := true];
      NodesPut(es, Entry(pid, pp, name), p0, q0, i0, ppid[..], ins[..]);
    }

    // Lines 25 to 49.
    method CreateNode(pid: nat, pp: nat, name: string)
      requires Valid() && Built(f, es) && 0 < pid < MAX_PID && pp < MAX_PID
      modifies this`es, this`f, present, ppid, ins, first, next
      ensures Valid() && Built(f, es)
      ensures es == if Parent(old(es), pid) == NIL then old(es) + [Entry(pid, pp, name)] else old(es)
    {
      assert NodeOk(es, present[..], ppid[..], ins[..], pid);
      // REPAIR: the program tests pid, so that a node made for a parent before
      // it was listed is never filled in
      if present[pid] && ppid[pid] != NIL { return; }
      ghost var e := Entry(pid, pp, name);
      Fill(pid, pp, name);
      BuiltPut(f, es, e);
      OneMore(es, e, pid);
      Push(pid, pp);
      es := es + [e];
    }

    // Lines 127 to 129: the first child of i.
    method HandOver(i: nat)
      requires Shape() && Ok(f) && Linked(present[..], first[..], next[..], f)
      requires 1 < i < MAX_PID && present[i] && present[1] && first[i] != NIL
      modifies this`f, first, next
      ensures Ok(f) && Linked(present[..], first[..], next[..], f)
      ensures old(f).kids[i] != [] && old(f).kids[i][0] < MAX_PID
      ensures f == Put(Cut(old(f), i), old(f).kids[i][0], 1)
    {
      CutLinked(present[..], first[..], next[..], f, i);
      CutOk(f, i);
      var tmp := first[i];
      ghost var first1 := first[..][i := next[tmp]];
      first[i] := next[tmp];
      f := Cut(f, i);
      assert first[..] == first1;
      Push(tmp, 1);
    }

    // Lines 125 to 130.
    method Adopt(i: nat)
      requires Valid() && Stage(f, es, i) && 1 < i < MAX_PID && present[i] && present[1] && Parent(es, i) == NIL
      modifies this`f, first, next
      ensures Valid() && Stage(f, es, i + 1)
    {
      ghost var moved: seq<nat> := [];
      StartMoving(f, es, i);
      while first[i] != NIL
        invariant Ok(f) && Linked(present[..], first[..], next[..], f) && Moving(f, es, i, moved)
        decreases |f.kids[i]|
      {
        ghost var g := f;
        HandOver(i);
        MoveOne(g, es, i, moved);
        moved := moved + [g.kids[i][0]];
      }
      assert ListOk(present[..], first[..], next[..], f, i);
      AllMoved(f, es, i, moved);
    }

    // Lines 122 to 131.
    method ReparentOne(i: nat)
      requires Valid() && Stage(f, es, i) && 1 <= i < MAX_PID && Parent(es, 1) != NIL
      modifies this`f, first, next
      ensures Valid() && Stage(f, es, i + 1)
    {
      assert NodeOk(es, present[..], ppid[..], ins[..], i);
      if present[i] && ppid[i] == NIL {
        assert NodeOk(es, present[..], ppid[..], ins[..], 1);
        Adopt(i);
      } else {
        StageSkips(f, es, i);
      }
    }

    // Lines 120 to 132.
    method Reparent()
      requires Valid() && Built(f, es) && Parent(es, 1) != NIL
      modifies this`f, first, next
      ensures Valid() && Stage(f, es, MAX_PID)
    {
      var i := 1;
      while i < MAX_PID
        invariant 1 <= i <= MAX_PID && Valid() && Stage(f, es, i)
      {
        ReparentOne(i);
        i := i + 1;
      }
    }

    // Lines 51 to 82: the pids in the order printed.
    method PrintTree(root: nat, ghost d: seq<nat>) returns (order: seq<nat>)
      requires Valid() && Stage(f, es, MAX_PID) && Ranked(f, d) && root < MAX_PID && present[root]
      ensures order == Visits(f, d, root)
      decreases Height(d) - d[root]
    {
      assert ListOk(present[..], first[..], next[..], f, root) && Owned(f.kids[root], f.owner, root);
      ghost var ks := f.kids[root];
      order := [root];
      var p := first[root];
      while p != NIL
        invariant Chain(p, next[..], ks) && Owned(ks, f.owner, root)
        invariant order + VisitsAll(f, d, root, ks) == Visits(f, d, root)
        decreases |ks|
      {
        assert Deeper(f, d, ks[0]);
        assert NodeOk(es, present[..], ppid[..], ins[..], p) && f.owner[p] == StageOwner(es, MAX_PID, p);
        var sub := PrintTree(p, d);
        order := order + sub;
        ks := ks[1..];
        p := next[p];
      }
    }
  }

  // What is listed, the first time each pid is.
  function Kept(list: seq<Entry>): seq<Entry> {
    if list == [] then []
    else
      var es, e := Kept(list[..|list| - 1]), list[|list| - 1];
      if Parent(es, e.pid) == NIL then es + [e] else es
  }

  // None of the first k entries lists x.
  predicate NotYet(list: seq<Entry>, x: nat, k: nat) {
    k <= |list| && forall j | 0 <= j < k :: list[j].pid != x
  }

  lemma {:induction false} NotYetBefore(list: seq<Entry>, x: nat, k: nat, n: nat)
    requires NotYet(list, x, k) && k <= n <= |list|
    ensures NotYet(list[..n], x, k)
  {
  }

  lemma {:induction false} KeptStep(list: seq<Entry>, x: nat)
    requires list != []
    ensures var init, e := list[..|list| - 1], list[|list| - 1];
            Parent(Kept(list), x) == if e.pid == x && Parent(Kept(init), x) == NIL then e.ppid else Parent(Kept(init), x)
  {
    OneMore(Kept(list[..|list| - 1]), list[|list| - 1], x);
  }

  // A process that is listed again keeps the parent it was first listed with.
  lemma {:induction false} KeptFirst(list: seq<Entry>, x: nat, k: nat)
    requires NotYet(list, x, k)
    ensures k == |list| ==> Parent(Kept(list), x) == NIL
    ensures k < |list| && list[k].pid == x ==> Parent(Kept(list), x) == list[k].ppid
    decreases |list|
  {
    if list != [] {
      var n := |list| - 1;
      var m := if k < n then k else n;
      KeptStep(list, x);
      NotYetBefore(list, x, m, n);
      KeptFirst(list[..n], x, m);
    }
  }

  // Lines 91 to 134. Whatever the order of the list, the final forest is the
  // parent relation that was listed, with process 1 in place of the parents
  // that were not, and what is printed is that forest under 1 in preorder.
  method Run(list: seq<Entry>, ghost rank: seq<nat>) returns (order: seq<nat>)
    requires forall k | 0 <= k < |list| :: 0 < list[k].pid < MAX_PID && list[k].ppid < MAX_PID
    requires Parent(Kept(list), 1) != NIL && Acyclic(Kept(list), rank) && Top(Kept(list), rank, 1) == 0
    ensures Ranked(Final(Kept(list)), Depths(Kept(list), rank))
    ensures order == Visits(Final(Kept(list)), Depths(Kept(list), rank), 1)
    ensures Preorder(Final(Kept(list)), Depths(Kept(list), rank), 1, order) && order[0] == 1
  {
    var table := new Table();
    var k := 0;
    while k < |list|
      invariant k <= |list| && table.Valid() && Built(table.f, table.es) && table.es == Kept(list[..k])
      invariant fresh(table) && fresh(table.present) && fresh(table.ppid) && fresh(table.ins)
      invariant fresh(table.first) && fresh(table.next)
    {
      assert list[..k + 1][..k] == list[..k];
      table.CreateNode(list[k].pid, list[k].ppid, list[k].ins);
      k := k + 1;
    }
    assert list[..k] == list;
    table.Reparent();
    ghost var f, d := table.f, Depths(Kept(list), rank);
    FinalRanked(f, table.es, rank);
    FinalStage(f, table.es);
    assert NodeOk(table.es, table.present[..], table.ppid[..], table.ins[..], 1);
    order := table.PrintTree(1, d);
    VisitsInPreorder(f, d, 1);
  }

  // The failing case of RankedExactly is real: process 1 under an unlisted 5.
  lemma {:induction false} OneUnderUnlisted() returns (rank: seq<nat>)
    ensures var es := [Entry(1, 5, "x")];
            Listing(es) && Acyclic(es, rank) && Parent(es, 1) != NIL && Top(es, rank, 1) == 5
  {
    var es := [Entry(1, 5, "x")];
    rank := seq(MAX_PID, x requires 0 <= x => if x == 1 then 1 else 0);
    assert es == [] + [Entry(1, 5, "x")];
    forall x: nat ensures Parent(es, x) == if x == 1 then 5 else NIL { OneMore([], Entry(1, 5, "x"), x); }
    OneMore([], Entry(1, 5, "x"), 1);
    assert Top(es, rank, 5) == 5;
  }

  // The failing case of AdoptingItself is real: a list that names process 1 as
  // a parent and does not have it.
  method HiddenFirst() returns (table: Table)
    ensures table.Valid() && table.es == [Entry(2, 1, "x")]
    ensures !FirstRoundEnds(table.present[..], table.ppid[..], table.first[..], table.next[..])
  {
    table := new Table();
    table.CreateNode(2, 1, "x");
    ghost var es := table.es;
    assert es == [] + [Entry(2, 1, "x")];
    OneMore([], Entry(2, 1, "x"), 1);
    assert Parent(es, 1) == NIL && Kids(es, 1) == [2] + [];
    AdoptingItself(es, table.f, table.present[..], table.ppid[..], table.ins[..], table.first[..], table.next[..]);
  }
}
