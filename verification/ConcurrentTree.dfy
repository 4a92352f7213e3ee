/**
  Any number of threads running add of 30-2-thread-safe_binary-tree.c on one
  tree, as interleaved steps. A thread locks the node it stands on, compares,
  reads a link, then moves or links its new node, and unlocks; between one
  unlock and the next lock it holds nothing.

  REPAIR: the program leaves a loop with `break` at lines 47 and 57 without
  unlocking; here a thread that has linked unlocks before it returns. The
  module ends with what happens when it does not. initialize (lines 18 to 25)
  returns the root it builds, which the program forgets.
 */
module ConcurrentTree {
  import opened SearchTree
  import opened Pigeonhole
  import opened Sequences

  datatype Job = Job(key: Key, value: nat)

  // Where a thread is: d counts the moves it has made.
  datatype Pc =
    | Want(t: nat, d: nat)                  // line 38, not yet granted
    | Holds(t: nat, d: nat)                 // line 40
    | Goes(t: nat, next: nat, d: nat)       // moved at line 43 or 53, before line 61
    | Links(t: nat, leftward: bool, d: nat) // found NULL, before line 46 or 56
    | Leaves(t: nat)                        // linked, before the repaired unlock
    | Done

  // cells[0] is the root, cells[i + 1] the node that thread i allocates.
  // lock[x] is the thread that holds the mutex of cell x, or -1. linked is the
  // history of which threads have linked their node, in order.
  datatype State = State(cells: seq<Cell>, lock: seq<int>, pc: seq<Pc>, linked: seq<nat>)

  function Root(): Cell {
    Cell([], 0, -1, -1)
  }

  function Init(jobs: seq<Job>): State {
    State([Root()] + seq(|jobs|, i requires 0 <= i < |jobs| => Cell(jobs[i].key, jobs[i].value, -1, -1)),
          seq(|jobs| + 1, i => -1), seq(|jobs|, i => Want(0, 0)), [])
  }

  // The node a thread stands on while it is inside the loop.
  function At(p: Pc): nat {
    match p
    case Want(t, _) => t
    case Holds(t, _) => t
    case Goes(t, _, _) => t
    case Links(t, _, _) => t
    case Leaves(t) => t
    case Done => 0
  }

  predicate Holding(p: Pc) {
    p.Holds? || p.Goes? || p.Links? || p.Leaves?
  }

  ghost predicate Typed(jobs: seq<Job>, s: State) {
    && |s.cells| == |s.lock| == |jobs| + 1 && |s.pc| == |jobs|
    && (forall i | 0 <= i < |s.pc| :: At(s.pc[i]) < |s.cells| && (s.pc[i].Goes? ==> s.pc[i].next < |s.cells|))
    && (forall x | 0 <= x < |s.cells| :: -1 <= s.cells[x].left < |s.cells| && -1 <= s.cells[x].right < |s.cells|)
  }

  // Thread i can take a step: it is not finished, and not waiting for a mutex
  // that another thread holds.
  ghost predicate Enabled(jobs: seq<Job>, s: State, i: nat) {
    && Typed(jobs, s) && i < |jobs| && s.pc[i] != Done
    && (s.pc[i].Want? ==> s.lock[s.pc[i].t] == -1)
  }

  ghost function Step(jobs: seq<Job>, s: State, i: nat): (r: State)
    requires Enabled(jobs, s, i)
    ensures Typed(jobs, r)
  {
    match s.pc[i]
    case Want(t, d) =>
      s.(lock := s.lock[t := i], pc := s.pc[i := Holds(t, d)])
    case Holds(t, d) =>
      var leftward := Less(s.cells[t].key, jobs[i].key);
      var c := s.cells[t].Child(leftward);
      s.(pc := s.pc[i := if c != -1 then Goes(t, c, d) else Links(t, leftward, d)])
    case Goes(t, next, d) =>
      s.(lock := s.lock[t := -1], pc := s.pc[i := Want(next, d + 1)])
    case Links(t, leftward, d) =>
      s.(cells := s.cells[t := s.cells[t].WithChild(leftward, i + 1)], pc := s.pc[i := Leaves(t)],
         linked := s.linked + [i])
    case Leaves(t) =>
      s.(lock := s.lock[t := -1], pc := s.pc[i := Done])
  }

  // -------------------------------------------------- the sequential reading

  // The tree that one thread builds by inserting the jobs in the given order.
  function Build(jobs: seq<Job>, order: seq<nat>): Tree
    requires forall i | 0 <= i < |order| :: order[i] < |jobs|
  {
    if order == [] then Node(0, [], 0, Leaf, Leaf)
    else
      var n := |order| - 1;
      Insert(Build(jobs, order[..n]), order[n] + 1, jobs[order[n]].key, jobs[order[n]].value)
  }

  ghost predicate Order(jobs: seq<Job>, order: seq<nat>) {
    DistinctBelow(order, |jobs|)
  }

  // The cells in the tree are the root and those of the threads in order.
  lemma {:induction false} BuildHas(jobs: seq<Job>, order: seq<nat>, i: nat)
    requires Order(jobs, order)
    ensures 0 in Ids(Build(jobs, order))
    ensures i + 1 in Ids(Build(jobs, order)) <==> i in order
  {
    if order != [] {
      var n := |order| - 1;
      BuildHas(jobs, order[..n], i);
      InsertIds(Build(jobs, order[..n]), order[n] + 1, jobs[order[n]].key, jobs[order[n]].value);
      assert i in order <==> i in order[..n] || i == order[n];
    }
  }

  lemma {:induction false} BuildShape(jobs: seq<Job>, order: seq<nat>)
    requires Order(jobs, order)
    ensures Build(jobs, order).Node? && Build(jobs, order).id == 0
    ensures SearchTree.Distinct(Build(jobs, order)) && Size(Build(jobs, order)) == |order| + 1
  {
    if order != [] {
      var n := |order| - 1;
      BuildShape(jobs, order[..n]);
      BuildHas(jobs, order[..n], order[n]);
      InsertIds(Build(jobs, order[..n]), order[n] + 1, jobs[order[n]].key, jobs[order[n]].value);
    }
  }

  lemma {:induction false} BuildOrdered(jobs: seq<Job>, order: seq<nat>)
    requires Order(jobs, order)
    ensures Ordered(Build(jobs, order))
  {
    if order != [] {
      var n := |order| - 1;
      BuildOrdered(jobs, order[..n]);
      InsertOrdered(Build(jobs, order[..n]), order[n] + 1, jobs[order[n]].key, jobs[order[n]].value);
    }
  }

  // How often the jobs in order, or the first n jobs, have the entry x.
  function Among(jobs: seq<Job>, order: seq<nat>, x: (Key, nat)): nat
    requires forall i | 0 <= i < |order| :: order[i] < |jobs|
  {
    if order == [] then 0
    else
      var n := |order| - 1;
      Among(jobs, order[..n], x) + Once(jobs[order[n]], x)
  }

  function AmongFirst(jobs: seq<Job>, n: nat, x: (Key, nat)): nat
    requires n <= |jobs|
  {
    if n == 0 then 0 else AmongFirst(jobs, n - 1, x) + Once(jobs[n - 1], x)
  }

  function Once(job: Job, x: (Key, nat)): nat {
    if x == (job.key, job.value) then 1 else 0
  }

  lemma {:induction false} BuildEntries(jobs: seq<Job>, order: seq<nat>, x: (Key, nat))
    requires Order(jobs, order)
    ensures Count(Build(jobs, order), x) == (if x == (Root().key, Root().value) then 1 else 0) + Among(jobs, order, x)
  {
    if order != [] {
      var n := |order| - 1;
      BuildEntries(jobs, order[..n], x);
      InsertCount(Build(jobs, order[..n]), order[n] + 1, jobs[order[n]].key, jobs[order[n]].value, x);
    }
  }

  lemma {:induction false} AmongWithout(jobs: seq<Job>, order: seq<nat>, k: nat, x: (Key, nat))
    requires k < |order| && forall i | 0 <= i < |order| :: order[i] < |jobs|
    ensures Among(jobs, order, x) == Among(jobs, Without(order, k), x) + Once(jobs[order[k]], x)
    decreases |order|
  {
    var n := |order| - 1;
    if k == n {
      assert Without(order, k) == order[..n];
    } else {
      var w := Without(order, k);
      assert w[n - 1] == order[n] && w[..n - 1] == Without(order[..n], k);
      AmongWithout(jobs, order[..n], k, x);
    }
  }

  lemma {:induction false} BelowWithout(order: seq<nat>, n: nat, k: nat)
    requires DistinctBelow(order, n) && k < |order| && order[k] == n - 1
    ensures DistinctBelow(Without(order, k), n - 1)
  {
    var w := Without(order, k);
    assert forall i | 0 <= i < |w| :: w[i] == order[if i < k then i else i + 1];
  }

  // Whatever the order, all n jobs make the same entries.
  lemma {:induction false} AmongAll(jobs: seq<Job>, order: seq<nat>, n: nat, x: (Key, nat))
    requires DistinctBelow(order, n) && |order| == n <= |jobs|
    ensures Among(jobs, order, x) == AmongFirst(jobs, n, x)
    decreases n
  {
    if n > 0 {
      Pigeonhole.Distinct(order, n);
      assert n - 1 in order;
      var k: nat :| k < n && order[k] == n - 1;
      AmongWithout(jobs, order, k, x);
      BelowWithout(order, n, k);
      AmongAll(jobs, Without(order, k), n - 1, x);
    }
  }

  // ---------------------------------------------------------- the invariant

  ghost predicate Locks(s: State) {
    && (forall i | 0 <= i < |s.pc| && Holding(s.pc[i]) :: At(s.pc[i]) < |s.lock| && s.lock[At(s.pc[i])] == i)
    && (forall x | 0 <= x < |s.lock| && s.lock[x] != -1 ::
          0 <= s.lock[x] < |s.pc| && Holding(s.pc[s.lock[x]]) && At(s.pc[s.lock[x]]) == x)
  }

  predicate Linked(p: Pc) {
    p.Leaves? || p.Done?
  }

  // A thread that has not linked stands on its own search path, its node is
  // still as it was made, and what it has read still holds.
  ghost predicate ThreadOk(jobs: seq<Job>, s: State, t: Tree, i: nat)
    requires i < |jobs| && Typed(jobs, s)
  {
    var p := s.pc[i];
    && (Linked(p) <==> i in s.linked)
    && (!Linked(p) ==>
          && s.cells[i + 1] == Cell(jobs[i].key, jobs[i].value, -1, -1)
          && OnPath(t, jobs[i].key, At(p)) && Depth(t, jobs[i].key, At(p)) == p.d)
    && (p.Goes? ==> OnPath(t, jobs[i].key, p.next) && Depth(t, jobs[i].key, p.next) == p.d + 1)
    && (p.Links? ==> p.leftward == Less(s.cells[p.t].key, jobs[i].key) && s.cells[p.t].Child(p.leftward) == -1)
  }

  ghost predicate Inv(jobs: seq<Job>, s: State) {
    && Typed(jobs, s) && Order(jobs, s.linked) && Locks(s)
    && Rep(s.cells, 0, Build(jobs, s.linked))
    && forall i | 0 <= i < |jobs| :: ThreadOk(jobs, s, Build(jobs, s.linked), i)
  }

  lemma {:induction false} InitInv(jobs: seq<Job>)
    ensures Inv(jobs, Init(jobs))
  {
    var s := Init(jobs);
    forall i | 0 <= i < |jobs| ensures ThreadOk(jobs, s, Build(jobs, []), i) {
      assert s.cells[i + 1] == Cell(jobs[i].key, jobs[i].value, -1, -1);
    }
    assert Rep(s.cells, s.cells[0].left, Leaf) && Rep(s.cells, s.cells[0].right, Leaf);
  }

  // Mutual exclusion is kept by every step.
  lemma {:induction false} LocksKept(jobs: seq<Job>, s: State, i: nat)
    requires Enabled(jobs, s, i) && Locks(s)
    ensures Locks(Step(jobs, s, i))
  {
    var r := Step(jobs, s, i);
    forall j | 0 <= j < |r.pc| && Holding(r.pc[j]) ensures At(r.pc[j]) < |r.lock| && r.lock[At(r.pc[j])] == j {
      HolderKept(jobs, s, i, j);
    }
    forall x | 0 <= x < |r.lock| && r.lock[x] != -1
      ensures 0 <= r.lock[x] < |r.pc| && Holding(r.pc[r.lock[x]]) && At(r.pc[r.lock[x]]) == x
    {
      LockKept(jobs, s, i, x);
    }
  }

  lemma {:induction false} HolderKept(jobs: seq<Job>, s: State, i: nat, j: nat)
    requires Enabled(jobs, s, i) && Locks(s) && j < |jobs| && Holding(Step(jobs, s, i).pc[j])
    ensures var r := Step(jobs, s, i); r.lock[At(r.pc[j])] == j
  {
    if j != i { assert Holding(s.pc[j]); }
    if s.pc[i] != Done && !s.pc[i].Want? { assert Holding(s.pc[i]); }
  }

  lemma {:induction false} LockKept(jobs: seq<Job>, s: State, i: nat, x: nat)
    requires Enabled(jobs, s, i) && Locks(s) && x < |s.lock| && Step(jobs, s, i).lock[x] != -1
    ensures var r := Step(jobs, s, i);
            0 <= r.lock[x] < |r.pc| && Holding(r.pc[r.lock[x]]) && At(r.pc[r.lock[x]]) == x
  {
    if !s.pc[i].Want? { assert Holding(s.pc[i]); }
  }

  // A step that links nothing leaves every other thread as it was.
  lemma {:induction false} QuietStep(jobs: seq<Job>, s: State, i: nat)
    requires Inv(jobs, s) && Enabled(jobs, s, i) && !s.pc[i].Links?
    ensures Inv(jobs, Step(jobs, s, i))
    ensures var r := Step(jobs, s, i);
            r.cells == s.cells && r.linked == s.linked && forall j | 0 <= j < |jobs| && j != i :: r.pc[j] == s.pc[j]
  {
    var r := Step(jobs, s, i);
    var t := Build(jobs, s.linked);
    LocksKept(jobs, s, i);
    BuildShape(jobs, s.linked);
    forall j | 0 <= j < |jobs| ensures ThreadOk(jobs, r, t, j) {
      assert ThreadOk(jobs, s, t, j);
      if j == i { QuietThread(jobs, s, t, i); }
    }
  }

  lemma {:induction false} QuietThread(jobs: seq<Job>, s: State, t: Tree, i: nat)
    requires Enabled(jobs, s, i) && !s.pc[i].Links? && ThreadOk(jobs, s, t, i)
    requires Rep(s.cells, 0, t) && SearchTree.Distinct(t)
    ensures ThreadOk(jobs, Step(jobs, s, i), t, i)
  {
    if Step(jobs, s, i).pc[i].Goes? { PathStep(s.cells, 0, t, jobs[i].key, At(s.pc[i])); }
  }

  lemma {:induction false} BuildNext(jobs: seq<Job>, order: seq<nat>, i: nat)
    requires Order(jobs, order) && i < |jobs| && i !in order
    ensures Order(jobs, order + [i])
    ensures Build(jobs, order + [i]) == Insert(Build(jobs, order), i + 1, jobs[i].key, jobs[i].value)
  {
    assert (order + [i])[..|order|] == order;
  }

  // The step that links: it overwrites nothing, and the tree in memory becomes
  // the one that sequential insertion makes.
  lemma {:induction false} LinkTree(jobs: seq<Job>, s: State, i: nat)
    requires Inv(jobs, s) && Enabled(jobs, s, i) && s.pc[i].Links?
    ensures Order(jobs, s.linked + [i])
    ensures Rep(Step(jobs, s, i).cells, 0, Build(jobs, s.linked + [i]))
    ensures Build(jobs, s.linked + [i]) == Insert(Build(jobs, s.linked), i + 1, jobs[i].key, jobs[i].value)
  {
    var t, job := Build(jobs, s.linked), jobs[i];
    assert ThreadOk(jobs, s, t, i);
    BuildNext(jobs, s.linked, i);
    BuildShape(jobs, s.linked);
    BuildHas(jobs, s.linked, i);
    LinkInserts(s.cells, 0, t, job.key, job.value, s.pc[i].t, i + 1);
  }

  lemma {:induction false} LinkStep(jobs: seq<Job>, s: State, i: nat)
    requires Inv(jobs, s) && Enabled(jobs, s, i) && s.pc[i].Links?
    ensures Inv(jobs, Step(jobs, s, i))
  {
    var r := Step(jobs, s, i);
    LocksKept(jobs, s, i);
    LinkTree(jobs, s, i);
    assert r.linked == s.linked + [i];
    forall j | 0 <= j < |jobs| ensures ThreadOk(jobs, r, Build(jobs, r.linked), j) {
      OthersAtLink(jobs, s, i, j);
    }
  }

  lemma {:induction false} OthersAtLink(jobs: seq<Job>, s: State, i: nat, j: nat)
    requires Inv(jobs, s) && Enabled(jobs, s, i) && s.pc[i].Links? && j < |jobs|
    ensures ThreadOk(jobs, Step(jobs, s, i), Insert(Build(jobs, s.linked), i + 1, jobs[i].key, jobs[i].value), j)
  {
    var t, q, r := Build(jobs, s.linked), s.pc[j], Step(jobs, s, i);
    assert ThreadOk(jobs, s, t, j);
    if j == i {
      assert i in r.linked;
    } else if Linked(q) {
      assert j in s.linked;
    } else {
      ElsewhereAtLink(jobs, s, i, j);
      PathStays(t, jobs[j].key, At(q), i + 1, jobs[i].key, jobs[i].value);
      if q.Goes? { PathStays(t, jobs[j].key, q.next, i + 1, jobs[i].key, jobs[i].value); }
      assert j !in r.linked;
      assert r.pc[j] == q && r.cells[j + 1] == s.cells[j + 1];
      assert Holding(q) ==> r.cells[At(q)] == s.cells[At(q)];
    }
  }

  // The cell being written is neither another thread's new node nor a node
  // that another thread has locked.
  lemma {:induction false} ElsewhereAtLink(jobs: seq<Job>, s: State, i: nat, j: nat)
    requires Inv(jobs, s) && i < |jobs| && j < |jobs| && j != i && s.pc[i].Links? && !Linked(s.pc[j])
    ensures s.pc[i].t != j + 1
    ensures Holding(s.pc[j]) ==> At(s.pc[j]) != s.pc[i].t
  {
    var t := Build(jobs, s.linked);
    assert ThreadOk(jobs, s, t, i) && ThreadOk(jobs, s, t, j);
    BuildHas(jobs, s.linked, j);
    PathIds(t, jobs[i].key, s.pc[i].t);
    assert Holding(s.pc[i]);
  }

  lemma {:induction false} StepKeeps(jobs: seq<Job>, s: State, i: nat)
    requires Inv(jobs, s) && Enabled(jobs, s, i)
    ensures Inv(jobs, Step(jobs, s, i))
  {
    if s.pc[i].Links? { LinkStep(jobs, s, i); } else { QuietStep(jobs, s, i); }
  }

  // ------------------------------------------------- progress and whole runs

  // A thread never holds two mutexes.
  lemma {:induction false} OneLockEach(jobs: seq<Job>, s: State, x: nat, y: nat)
    requires Inv(jobs, s) && x < |s.lock| && y < |s.lock| && s.lock[x] == s.lock[y] != -1
    ensures x == y
  {
  }

  // As long as an add is unfinished it can go on, or it waits for a mutex whose
  // holder can.
  lemma {:induction false} SomeoneCanStep(jobs: seq<Job>, s: State, i: nat)
    requires Inv(jobs, s) && i < |jobs| && s.pc[i] != Done
    ensures Enabled(jobs, s, i)
            || (s.pc[i].Want? && 0 <= s.lock[s.pc[i].t] < |jobs| && Enabled(jobs, s, s.lock[s.pc[i].t]))
  {
  }

  // What is left of one add among n: three steps for each node ahead of it.
  function Rank(n: nat, p: Pc): int {
    match p
    case Want(_, d) => 3 * (n - d) + 4
    case Holds(_, d) => 3 * (n - d) + 3
    case Goes(_, _, d) => 3 * (n - d) + 2
    case Links(_, _, d) => 3 * (n - d) + 2
    case Leaves(_) => 1
    case Done => 0
  }

  function Ranks(n: nat, ps: seq<Pc>): int {
    if ps == [] then 0 else Rank(n, ps[0]) + Ranks(n, ps[1..])
  }

  lemma {:induction false} RanksUpdate(n: nat, ps: seq<Pc>, i: nat, p: Pc)
    requires i < |ps|
    ensures Ranks(n, ps[i := p]) == Ranks(n, ps) - Rank(n, ps[i]) + Rank(n, p)
  {
    if i == 0 {
      assert ps[i := p][1..] == ps[1..];
    } else {
      assert ps[i := p][1..] == ps[1..][i - 1 := p];
      RanksUpdate(n, ps[1..], i - 1, p);
    }
  }

  lemma {:induction false} RanksAll(n: nat, ps: seq<Pc>)
    requires forall i | 0 <= i < |ps| :: Rank(n, ps[i]) >= 0
    ensures Ranks(n, ps) >= 0
    ensures (forall i | 0 <= i < |ps| :: ps[i] == Want(0, 0)) ==> Ranks(n, ps) == |ps| * (3 * n + 4)
  {
    if ps != [] {
      RanksAll(n, ps[1..]);
    }
  }

  // A thread that has not linked has at most |jobs| - 1 nodes behind it.
  lemma {:induction false} NotTooDeep(jobs: seq<Job>, s: State, i: nat)
    requires Inv(jobs, s) && i < |jobs|
    ensures Rank(|jobs|, s.pc[i]) >= 0
  {
    var t := Build(jobs, s.linked);
    assert ThreadOk(jobs, s, t, i);
    if !Linked(s.pc[i]) {
      BuildShape(jobs, s.linked);
      PathIds(t, jobs[i].key, At(s.pc[i]));
      Pigeonhole.Distinct(s.linked, |jobs|);
    }
  }

  lemma {:induction false} StepRank(jobs: seq<Job>, s: State, i: nat)
    requires Inv(jobs, s) && Enabled(jobs, s, i)
    ensures Ranks(|jobs|, Step(jobs, s, i).pc) < Ranks(|jobs|, s.pc)
  {
    var t := Build(jobs, s.linked);
    assert ThreadOk(jobs, s, t, i);
    var r := Step(jobs, s, i);
    RanksUpdate(|jobs|, s.pc, i, r.pc[i]);
    assert r.pc == s.pc[i := r.pc[i]];
    if s.pc[i].Links? { NotTooDeep(jobs, s, i); }
  }

  // A run: the threads step in the order of the schedule.
  ghost predicate Runs(jobs: seq<Job>, s: State, schedule: seq<nat>, r: State)
    decreases |schedule|
  {
    if schedule == [] then s == r
    else Enabled(jobs, s, schedule[0]) && Runs(jobs, Step(jobs, s, schedule[0]), schedule[1..], r)
  }

  lemma {:induction false} RunKeeps(jobs: seq<Job>, s: State, schedule: seq<nat>, r: State)
    requires Inv(jobs, s) && Runs(jobs, s, schedule, r)
    ensures Inv(jobs, r) && |schedule| + Ranks(|jobs|, r.pc) <= Ranks(|jobs|, s.pc)
    decreases |schedule|
  {
    if schedule != [] {
      StepKeeps(jobs, s, schedule[0]);
      StepRank(jobs, s, schedule[0]);
      RunKeeps(jobs, Step(jobs, s, schedule[0]), schedule[1..], r);
    }
  }

  // Safety over every run: what is in memory is the tree that sequential
  // insertion builds in the order of the links, and it is a search tree.
  lemma {:induction false} EveryRun(jobs: seq<Job>, schedule: seq<nat>, r: State)
    requires Runs(jobs, Init(jobs), schedule, r)
    ensures Inv(jobs, r)
    ensures Order(jobs, r.linked) && Rep(r.cells, 0, Build(jobs, r.linked)) && Ordered(Build(jobs, r.linked))
  {
    InitInv(jobs);
    RunKeeps(jobs, Init(jobs), schedule, r);
    BuildOrdered(jobs, r.linked);
  }

  // Every run of n adds ends within n * (3n + 4) steps.
  lemma {:induction false} RunsAreShort(jobs: seq<Job>, schedule: seq<nat>, r: State)
    requires Runs(jobs, Init(jobs), schedule, r)
    ensures |schedule| <= |jobs| * (3 * |jobs| + 4)
  {
    InitInv(jobs);
    RunKeeps(jobs, Init(jobs), schedule, r);
    forall i | 0 <= i < |jobs| ensures Rank(|jobs|, r.pc[i]) >= 0 { NotTooDeep(jobs, r, i); }
    RanksAll(|jobs|, r.pc);
    RanksAll(|jobs|, Init(jobs).pc);
  }

  // A run that cannot go on has finished every add: each was linked once, every
  // key can be looked up, and the tree has the jobs' entries and the root's,
  // each as often as it was added.
  lemma {:induction false} StuckMeansDone(jobs: seq<Job>, schedule: seq<nat>, r: State)
    requires Runs(jobs, Init(jobs), schedule, r)
    requires !exists i :: 0 <= i < |jobs| && Enabled(jobs, r, i)
    ensures |r.pc| == |r.linked| == |jobs| && Order(jobs, r.linked)
    ensures forall i | 0 <= i < |jobs| :: r.pc[i] == Done && i in r.linked
    ensures forall i | 0 <= i < |jobs| :: Lookup(Build(jobs, r.linked), jobs[i].key)
    ensures forall x :: Entries(Build(jobs, r.linked))[x] ==
                        (if x == (Root().key, Root().value) then 1 else 0) + AmongFirst(jobs, |jobs|, x)
  {
    EveryRun(jobs, schedule, r);
    forall i | 0 <= i < |jobs|
      ensures r.pc[i] == Done && i in r.linked && Lookup(Build(jobs, r.linked), jobs[i].key)
    {
      if r.pc[i] != Done { SomeoneCanStep(jobs, r, i); }
      assert ThreadOk(jobs, r, Build(jobs, r.linked), i);
      BuildKeys(jobs, r.linked, i);
      LookupFinds(Build(jobs, r.linked), jobs[i].key);
    }
    Pigeonhole.Distinct(r.linked, |jobs|);
    forall x ensures Entries(Build(jobs, r.linked))[x] ==
                     (if x == (Root().key, Root().value) then 1 else 0) + AmongFirst(jobs, |jobs|, x)
    {
      BuildEntries(jobs, r.linked, x);
      CountIs(Build(jobs, r.linked), x);
      AmongAll(jobs, r.linked, |jobs|, x);
    }
  }

  lemma {:induction false} InsertHas(t: Tree, id: nat, key: Key, value: nat, k: Key)
    ensures Has(Insert(t, id, key, value), k) <==> Has(t, k) || k == key
  {
    if t.Node? {
      InsertHas(Toward(t, key), id, key, value, k);
    }
  }

  lemma {:induction false} BuildKeys(jobs: seq<Job>, order: seq<nat>, i: nat)
    requires Order(jobs, order) && i in order
    ensures Has(Build(jobs, order), jobs[i].key)
  {
    var n := |order| - 1;
    InsertHas(Build(jobs, order[..n]), order[n] + 1, jobs[order[n]].key, jobs[order[n]].value, jobs[i].key);
    if i != order[n] {
      BuildKeys(jobs, order[..n], i);
    }
  }

  // ------------------------------------------------ without the repair

  // As lines 47 and 57 stand: the thread returns with the mutex held.
  ghost function StepAsWritten(jobs: seq<Job>, s: State, i: nat): (r: State)
    requires Enabled(jobs, s, i)
    ensures Typed(jobs, r)
  {
    var r := Step(jobs, s, i);
    if s.pc[i].Links? then r.(pc := s.pc[i := Done]) else r
  }

  ghost predicate RunsAsWritten(jobs: seq<Job>, s: State, schedule: seq<nat>, r: State)
    decreases |schedule|
  {
    if schedule == [] then s == r
    else Enabled(jobs, s, schedule[0]) && RunsAsWritten(jobs, StepAsWritten(jobs, s, schedule[0]), schedule[1..], r)
  }

  // Nobody gets past the root: the first thread to link keeps its mutex.
  ghost predicate Jammed(jobs: seq<Job>, s: State) {
    && Typed(jobs, s)
    && if s.linked == [] then
         && s.cells[0] == Root()
         && (forall i | 0 <= i < |jobs| :: s.pc[i] == Want(0, 0) || (Holding(s.pc[i]) && s.lock[0] == i))
         && (forall i | 0 <= i < |jobs| && s.pc[i] != Want(0, 0) ::
               s.pc[i] == Holds(0, 0) || (s.pc[i].Links? && s.pc[i].t == 0))
         && (s.lock[0] != -1 ==> 0 <= s.lock[0] < |jobs| && s.pc[s.lock[0]] != Want(0, 0))
       else
         && |s.linked| == 1 && s.linked[0] < |jobs| && s.lock[0] == s.linked[0]
         && forall i | 0 <= i < |jobs| :: s.pc[i] == if i == s.linked[0] then Done else Want(0, 0)
  }

  lemma {:induction false} JammedKept(jobs: seq<Job>, s: State, i: nat)
    requires Jammed(jobs, s) && Enabled(jobs, s, i)
    ensures Jammed(jobs, StepAsWritten(jobs, s, i))
  {
  }

  lemma {:induction false} RunJammed(jobs: seq<Job>, s: State, schedule: seq<nat>, r: State)
    requires Jammed(jobs, s) && RunsAsWritten(jobs, s, schedule, r)
    ensures Jammed(jobs, r)
    decreases |schedule|
  {
    if schedule != [] {
      JammedKept(jobs, s, schedule[0]);
      RunJammed(jobs, StepAsWritten(jobs, s, schedule[0]), schedule[1..], r);
    }
  }

  // Without the repair at most one add ever links, and the adds can all finish
  // exactly when there is at most one.
  lemma {:induction false} AsWrittenOneAdd(jobs: seq<Job>, schedule: seq<nat>, r: State)
    requires RunsAsWritten(jobs, Init(jobs), schedule, r)
    ensures |r.linked| <= 1 && |r.pc| == |jobs|
    ensures (!exists i :: 0 <= i < |jobs| && Enabled(jobs, r, i))
              ==> ((forall i | 0 <= i < |jobs| :: r.pc[i] == Done) <==> |jobs| <= 1)
  {
    RunJammed(jobs, Init(jobs), schedule, r);
    if |jobs| > 0 && r.linked == [] {
      JammedMoves(jobs, r);
    }
    if |jobs| > 1 && r.linked != [] {
      assert r.pc[0] == Want(0, 0) || r.pc[1] == Want(0, 0);
    }
  }

  // Two adds are enough: the first to run takes the root's mutex and returns
  // with it, and the second never gets any further.
  lemma {:induction false} TwoAddsJam(jobs: seq<Job>)
    requires |jobs| >= 2
    ensures exists r :: RunsAsWritten(jobs, Init(jobs), [0, 0, 0], r) && r.pc[1] == Want(0, 0)
                        && !exists i :: 0 <= i < |jobs| && Enabled(jobs, r, i)
  {
    var s0 := Init(jobs);
    var s1 := StepAsWritten(jobs, s0, 0);
    assert s1.cells[0] == Root() && s1.pc[0] == Holds(0, 0);
    var s2 := StepAsWritten(jobs, s1, 0);
    assert s2.pc[0].Links?;
    var r := StepAsWritten(jobs, s2, 0);
    assert r.pc[0] == Done && r.lock[0] == 0 && forall i | 1 <= i < |jobs| :: r.pc[i] == Want(0, 0);
    assert [0, 0, 0][1..] == [0, 0] && [0, 0][1..] == [0] && [0][1..] == [];
    assert RunsAsWritten(jobs, r, [], r) && RunsAsWritten(jobs, s2, [0], r) && RunsAsWritten(jobs, s1, [0, 0], r);
  }

  // Before the first link some thread can always step.
  lemma {:induction false} JammedMoves(jobs: seq<Job>, s: State)
    requires Jammed(jobs, s) && s.linked == [] && |jobs| > 0
    ensures exists i :: 0 <= i < |jobs| && Enabled(jobs, s, i)
  {
    if s.lock[0] != -1 {
      assert Enabled(jobs, s, s.lock[0]);
    } else {
      assert Enabled(jobs, s, 0);
    }
  }
}
