/**
  Two binary semaphores shared by any number of processes: the System V one of
  47-4-reserverSemNB.c, whose value the kernel keeps and, with SEM_UNDO, repairs
  when a process dies; and the one of 47-6-binary_sem_fifo.c, which is a FIFO
  with one byte in it. The FIFO is taken to be open already.
 */
module Semaphores {

  // undo is bsUseSemUndo and retry is bsRetryOnEintr. available says which of
  // initSemAvailable and initSemInUse set the semaphore up; in the second case
  // owner is the process on whose behalf it starts in use.
  datatype Config = Config(undo: bool, retry: bool, available: bool, owner: nat)

  // One step of process p.
  datatype Event =
    | Start(p: nat)    // enters reserveSem
    | Signal(p: nat)   // the wait in it fails with EINTR
    | Fail(p: nat)     // the wait in it fails otherwise
    | Take(p: nat)     // the wait in it ends
    | TryTake(p: nat)  // reserveSemNB returns 0
    | Refused(p: nat)  // reserveSemNB returns -1
    | Put(p: nat)      // releaseSem
    | Die(p: nat)

  // value is semval and adj the kernel's semadj. waiting holds the processes
  // inside reserveSem. holders has a process once for each reservation that it
  // has not released. plain has a process once for each reservation that it has
  // made unknown to SEM_UNDO; lost counts the tokens that deaths have cost.
  datatype State = State(value: nat, adj: map<nat, int>, waiting: set<nat>, holders: multiset<nat>,
                         plain: multiset<nat>, dead: set<nat>, lost: nat)

  function Init(c: Config): State {
    if c.available then State(1, map[], {}, multiset{}, multiset{}, {}, 0)
    else State(0, map[], {}, multiset{c.owner}, if c.undo then multiset{c.owner} else multiset{}, {}, 0)
  }

  function Adj(s: State, p: nat): int {
    if p in s.adj then s.adj[p] else 0
  }

  predicate Enabled(s: State, e: Event) {
    e.p !in s.dead &&
    match e
    case Start(p) => p !in s.waiting
    case Signal(p) => p in s.waiting
    case Fail(p) => p in s.waiting
    case Take(p) => p in s.waiting && s.value > 0
    case TryTake(p) => p !in s.waiting && s.value > 0
    case Refused(p) => p !in s.waiting && s.value == 0
    case Put(p) => p !in s.waiting
    case Die(_) => true
  }

  function Step(c: Config, s: State, e: Event): State
    requires Enabled(s, e)
  {
    match e
    case Start(p) => s.(waiting := s.waiting + {p})
    case Signal(p) => if c.retry then s else s.(waiting := s.waiting - {p})
    case Fail(p) => s.(waiting := s.waiting - {p})
    case Take(p) =>
      s.(value := s.value - 1, adj := if c.undo then s.adj[p := Adj(s, p) + 1] else s.adj,
         waiting := s.waiting - {p}, holders := s.holders + multiset{p})
    case TryTake(p) =>
      s.(value := s.value - 1, holders := s.holders + multiset{p},
         plain := if c.undo then s.plain + multiset{p} else s.plain)
    case Refused(_) => s
    case Put(p) =>
      s.(value := s.value + 1, adj := if c.undo then s.adj[p := Adj(s, p) - 1] else s.adj,
         holders := s.holders - multiset{p})
    case Die(p) =>
      s.(value := if s.value + Adj(s, p) < 0 then 0 else s.value + Adj(s, p), adj := s.adj - {p},
         waiting := s.waiting - {p}, holders := s.holders[p := 0], plain := if c.undo then s.plain[p := 0] else s.plain,
         dead := s.dead + {p}, lost := s.lost + Cost(c, s, p))
  }

  // A death spares the token under SEM_UNDO when all reservations of p were
  // known, or when another process holds it now.
  predicate Spared(s: State, p: nat) {
    s.plain[p] == 0 || (s.value == 0 && p !in s.holders)
  }

  // What the death of p costs: without SEM_UNDO, all that it holds.
  function Cost(c: Config, s: State, p: nat): nat {
    if !c.undo then s.holders[p] else if Spared(s, p) then 0 else 1
  }

  // What is asked of the programs that use the semaphore: they release only
  // what they reserved.
  predicate Disciplined(s: State, e: Event) {
    e.Put? ==> e.p in s.holders
  }

  predicate Runs(c: Config, s: State, es: seq<Event>, r: State)
    decreases |es|
  {
    if es == [] then s == r
    else Enabled(s, es[0]) && Disciplined(s, es[0]) && Runs(c, Step(c, s, es[0]), es[1..], r)
  }

  // ------------------------------------------------------ the token is kept

  // What SEM_UNDO knows of the holds of p.
  function Known(c: Config, s: State, p: nat): int {
    if c.undo then s.holders[p] as int - s.plain[p] as int else 0
  }

  ghost predicate Inv(c: Config, s: State) {
    && s.value + |s.holders| + s.lost == 1
    && (!c.undo ==> s.plain == multiset{})
    && forall p: nat :: ProcessOk(c, s, p)
  }

  predicate ProcessOk(c: Config, s: State, p: nat) {
    Adj(s, p) == Known(c, s, p) && (p in s.dead ==> s.holders[p] == 0 && s.plain[p] == 0)
  }

  lemma {:induction false} InitInv(c: Config)
    ensures Inv(c, Init(c))
  {
  }

  // With one token around, holding it means that nobody else does.
  lemma {:induction false} HolderAlone(s: State, p: nat)
    requires s.value + |s.holders| + s.lost == 1 && p in s.holders
    ensures s.value == 0 && s.lost == 0 && s.holders == multiset{p}
  {
    assert s.holders == multiset{p} + (s.holders - multiset{p});
    assert |s.holders - multiset{p}| == 0;
  }

  lemma {:induction false} DeathCosts(c: Config, s: State, p: nat)
    requires Inv(c, s) && p !in s.dead
    ensures var r := Step(c, s, Die(p)); r.value + |r.holders| + r.lost == 1
  {
    assert ProcessOk(c, s, p);
    if p in s.holders { HolderAlone(s, p); }
  }

  lemma {:induction false} StepKeeps(c: Config, s: State, e: Event)
    requires Inv(c, s) && Enabled(s, e) && Disciplined(s, e)
    ensures Inv(c, Step(c, s, e))
  {
    var r := Step(c, s, e);
    if e.Die? { DeathCosts(c, s, e.p); }
    assert ProcessOk(c, s, e.p);
    forall p: nat ensures ProcessOk(c, r, p) {
      assert ProcessOk(c, s, p);
      ProcessKept(c, s, e, p);
    }
  }

  lemma {:induction false} ProcessKept(c: Config, s: State, e: Event, p: nat)
    requires Enabled(s, e) && ProcessOk(c, s, p) && ProcessOk(c, s, e.p) && (!c.undo ==> s.plain == multiset{})
    requires Disciplined(s, e)
    ensures ProcessOk(c, Step(c, s, e), p)
  {
  }

  lemma {:induction false} RunKeeps(c: Config, s: State, es: seq<Event>, r: State)
    requires Inv(c, s) && Runs(c, s, es, r)
    ensures Inv(c, r)
    decreases |es|
  {
    if es != [] {
      StepKeeps(c, s, es[0]);
      RunKeeps(c, Step(c, s, es[0]), es[1..], r);
    }
  }

  // In every run there is one token: in the semaphore, with one process, or
  // lost with a death. So two processes never hold the semaphore, and none
  // holds it twice.
  lemma {:induction false} OneToken(c: Config, es: seq<Event>, s: State, p: nat, q: nat)
    requires Runs(c, Init(c), es, s)
    ensures s.value + |s.holders| + s.lost == 1
    ensures p in s.holders && q in s.holders ==> p == q && s.holders == multiset{p}
    ensures p in s.dead ==> p !in s.holders
  {
    InitInv(c);
    RunKeeps(c, Init(c), es, s);
    if p in s.holders { HolderAlone(s, p); }
    assert ProcessOk(c, s, p);
  }

  // With SEM_UNDO the kernel's adjustment for a process is what it holds less
  // what it reserved with reserveSemNB, which never sets the flag. The token
  // survives the death of a process if and only if it never did that (and is
  // not the first owner of a semaphore that started in use), or another process
  // holds the token; and the death of a holder then puts it back.
  lemma {:induction false} DeathSpares(c: Config, es: seq<Event>, s: State, p: nat)
    requires Runs(c, Init(c), es, s) && c.undo && p !in s.dead && s.lost == 0
    ensures Adj(s, p) == s.holders[p] as int - s.plain[p] as int
    ensures var r := Step(c, s, Die(p));
            r.value + |r.holders| == 1 <==> s.plain[p] == 0 || (s.value == 0 && p !in s.holders)
    ensures p in s.holders && s.plain[p] == 0 ==> Step(c, s, Die(p)).value == 1
  {
    InitInv(c);
    RunKeeps(c, Init(c), es, s);
    StepKeeps(c, s, Die(p));
    assert ProcessOk(c, s, p);
    if p in s.holders { HolderAlone(s, p); }
  }

  // So with blocking calls alone, on a semaphore that started available, the
  // adjustment is what the process holds and no death ever costs the token.
  lemma {:induction false} UndoKeepsToken(c: Config, es: seq<Event>, s: State, p: nat)
    requires Runs(c, Init(c), es, s) && c.undo && c.available && forall e | e in es :: !e.TryTake?
    ensures s.lost == 0 && Adj(s, p) == s.holders[p]
  {
    InitInv(c);
    RunKeeps(c, Init(c), es, s);
    NoPlain(c, Init(c), es, s);
    assert ProcessOk(c, s, p);
  }

  lemma {:induction false} NoPlain(c: Config, s: State, es: seq<Event>, r: State)
    requires Runs(c, s, es, r) && c.undo && (forall e | e in es :: !e.TryTake?)
    requires s.plain == multiset{} && s.lost == 0
    ensures r.plain == multiset{} && r.lost == 0
    decreases |es|
  {
    if es != [] {
      assert !es[0].TryTake? && forall e | e in es[1..] :: e in es;
      NoPlain(c, Step(c, s, es[0]), es[1..], r);
    }
  }

  // Without SEM_UNDO there is no adjustment, and the token dies with its holder.
  lemma {:induction false} DeathWithoutUndo(c: Config, es: seq<Event>, s: State, p: nat)
    requires Runs(c, Init(c), es, s) && !c.undo && p !in s.dead
    ensures Adj(s, p) == 0
    ensures p in s.holders <==> Step(c, s, Die(p)).lost > s.lost
    ensures p in s.holders ==> Step(c, s, Die(p)).value == 0
  {
    InitInv(c);
    RunKeeps(c, Init(c), es, s);
    assert ProcessOk(c, s, p);
    if p in s.holders { HolderAlone(s, p); }
  }

  // A token that is lost is gone for good: in no later step does anyone reserve
  // or release the semaphore.
  lemma {:induction false} LostForGood(c: Config, s: State, es: seq<Event>, r: State, k: nat)
    requires Inv(c, s) && s.lost > 0 && Runs(c, s, es, r) && k < |es|
    ensures !es[k].Take? && !es[k].TryTake? && !es[k].Put?
    decreases |es|
  {
    if k > 0 {
      StepKeeps(c, s, es[0]);
      LostForGood(c, Step(c, s, es[0]), es[1..], r, k - 1);
    }
  }

  // Nobody waits for nothing: a process that wants the semaphore gets it now,
  // blocking or not, unless someone holds it or it is lost; and releasing it
  // never blocks.
  lemma {:induction false} WaitsOnlyForHolder(c: Config, es: seq<Event>, s: State, p: nat)
    requires Runs(c, Init(c), es, s) && p !in s.dead
    ensures p in s.waiting ==> (Enabled(s, Take(p)) <==> s.holders == multiset{} && s.lost == 0)
    ensures p !in s.waiting ==> (Enabled(s, TryTake(p)) <==> s.holders == multiset{} && s.lost == 0)
    ensures p !in s.waiting ==> (Enabled(s, Refused(p)) <==> s.holders != multiset{} || s.lost > 0)
    ensures p !in s.waiting ==> Enabled(s, Start(p)) && Enabled(s, Put(p))
  {
    InitInv(c);
    RunKeeps(c, Init(c), es, s);
  }

  // initSemAvailable lets the first call through; initSemInUse holds all back
  // until somebody releases.
  lemma {:induction false} StartsAs(c: Config, p: nat, q: nat)
    ensures Enabled(Init(c), TryTake(p)) <==> c.available
    ensures Enabled(Init(c), Refused(p)) <==> !c.available
    ensures !c.available ==> Enabled(Init(c), Put(q)) && Enabled(Step(c, Init(c), Put(q)), TryTake(p))
  {
  }

  // A call that does not reserve leaves the semaphore as it was, and its process
  // outside; unless it retries, and then the process is still waiting.
  lemma {:induction false} FailedCall(c: Config, s: State, e: Event)
    requires Enabled(s, e) && (e.Signal? || e.Fail? || e.Refused?)
    ensures Step(c, s, e) == s.(waiting := Step(c, s, e).waiting)
    ensures e.p in Step(c, s, e).waiting <==> e.Signal? && c.retry
  {
  }

  // What one process does leaves every other where it was, with what it holds,
  // and with what the kernel would undo for it.
  lemma {:induction false} Bystander(c: Config, s: State, e: Event, q: nat)
    requires Enabled(s, e) && q != e.p
    ensures var r := Step(c, s, e);
            (q in r.waiting <==> q in s.waiting) && (q in r.dead <==> q in s.dead)
            && r.holders[q] == s.holders[q] && r.plain[q] == s.plain[q] && Adj(r, q) == Adj(s, q)
  {
  }

  // A process that is dead does nothing more.
  lemma {:induction false} DeadForGood(c: Config, s: State, es: seq<Event>, r: State, p: nat)
    requires p in s.dead && Runs(c, s, es, r)
    ensures p in r.dead && forall e | e in es :: e.p != p
    decreases |es|
  {
    if es != [] {
      DeadForGood(c, Step(c, s, es[0]), es[1..], r, p);
      assert forall e | e in es :: e == es[0] || e in es[1..];
    }
  }

  lemma {:induction false} TakeAndPut(c: Config, s: State, p: nat, q: nat)
    requires s.value == 1 && p in s.waiting && p !in s.dead && s.holders == multiset{}
    ensures Enabled(s, Take(p))
    ensures var r := Step(c, s, Take(p)); r.value == 0 && r.holders == multiset{p} && Enabled(r, Put(p))
    ensures var r := Step(c, Step(c, s, Take(p)), Put(p));
            r == s.(waiting := s.waiting - {p}, adj := r.adj) && Adj(r, q) == Adj(s, q)
  {
  }

  // Whenever the token is free a process can reserve it; nobody else can then,
  // and releasing it leaves the semaphore, every hold and every adjustment as
  // they were.
  lemma {:induction false} ReserveRelease(c: Config, es: seq<Event>, s: State, p: nat, q: nat)
    requires Runs(c, Init(c), es, s) && p !in s.dead && p !in s.waiting && s.holders == multiset{} && s.lost == 0
    ensures Enabled(s, Start(p)) && Enabled(Step(c, s, Start(p)), Take(p))
    ensures var r := Step(c, Step(c, s, Start(p)), Take(p));
            r.holders == multiset{p} && !Enabled(r, Take(q)) && !Enabled(r, TryTake(q)) && Enabled(r, Put(p))
    ensures var r := Step(c, Step(c, Step(c, s, Start(p)), Take(p)), Put(p));
            r == s.(adj := r.adj) && Adj(r, q) == Adj(s, q)
  {
    InitInv(c);
    RunKeeps(c, Init(c), es, s);
    TakeAndPut(c, Step(c, s, Start(p)), p, q);
    assert s.waiting + {p} - {p} == s.waiting;
  }

  // The failing case of DeathSpares is real: a process that reserves with
  // reserveSemNB, releases with SEM_UNDO and exits takes the token with it.
  lemma {:induction false} TryTakeLoses(c: Config, p: nat)
    requires c.undo && c.available
    ensures exists s :: Runs(c, Init(c), [TryTake(p), Put(p), Die(p)], s) && s.lost == 1
  {
    var s1 := Step(c, Init(c), TryTake(p));
    var s2 := Step(c, s1, Put(p));
    var s3 := Step(c, s2, Die(p));
    var es := [TryTake(p), Put(p), Die(p)];
    assert es[1..] == [Put(p), Die(p)] && es[1..][1..] == [Die(p)] && [Die(p)][1..] == [];
    assert Runs(c, s3, [], s3) && Runs(c, s2, [Die(p)], s3) && Runs(c, s1, es[1..], s3);
    assert s2.plain[p] == 1 && s2.value == 1;
  }

  // The discipline is needed: a release by a process that holds nothing lets two
  // reserve, even when the semaphore counts what to undo.
  lemma {:induction false} ExtraRelease(c: Config, p: nat, q: nat)
    requires c.available
    ensures Enabled(Init(c), Put(p)) && !Disciplined(Init(c), Put(p))
    ensures var s1 := Step(c, Init(c), Put(p));
            Enabled(s1, TryTake(p)) && Enabled(Step(c, s1, TryTake(p)), TryTake(q))
            && Step(c, Step(c, s1, TryTake(p)), TryTake(q)).holders == multiset{p, q}
  {
    assert Step(c, Init(c), Put(p)).holders == multiset{};
  }

  // ------------------------------------------------------------- the FIFO

  // The same processes, with the bytes in the FIFO for a semaphore.
  datatype Fifo = Fifo(bytes: seq<char>, waiting: set<nat>, holders: multiset<nat>, dead: set<nat>, lost: nat)

  function InitFifo(available: bool, owner: nat): Fifo {
    if available then Fifo(['x'], {}, multiset{}, {}, 0) else Fifo([], {}, multiset{owner}, {}, 0)
  }

  // A read blocks while the FIFO is empty; there is no call that does not.
  predicate EnabledFifo(f: Fifo, e: Event) {
    e.p !in f.dead &&
    match e
    case Start(p) => p !in f.waiting
    case Signal(p) => p in f.waiting
    case Fail(p) => p in f.waiting
    case Take(p) => p in f.waiting && f.bytes != []
    case TryTake(_) => false
    case Refused(_) => false
    case Put(p) => p !in f.waiting
    case Die(_) => true
  }

  function StepFifo(f: Fifo, e: Event): Fifo
    requires EnabledFifo(f, e)
  {
    match e
    case Start(p) => f.(waiting := f.waiting + {p})
    case Signal(_) => f
    case Fail(p) => f.(waiting := f.waiting - {p})
    case Take(p) => f.(bytes := f.bytes[1..], waiting := f.waiting - {p}, holders := f.holders + multiset{p})
    case Put(p) => f.(bytes := f.bytes + ['x'], holders := f.holders - multiset{p})
    case Die(p) =>
      f.(waiting := f.waiting - {p}, holders := f.holders[p := 0], dead := f.dead + {p},
         lost := f.lost + f.holders[p])
  }

  predicate RunsFifo(f: Fifo, es: seq<Event>, r: Fifo)
    decreases |es|
  {
    if es == [] then f == r else EnabledFifo(f, es[0]) && RunsFifo(StepFifo(f, es[0]), es[1..], r)
  }

  // The System V semaphore under the calls that the FIFO has too, with no
  // discipline asked of the processes.
  predicate RunsPlain(c: Config, s: State, es: seq<Event>, r: State)
    decreases |es|
  {
    if es == [] then s == r
    else Enabled(s, es[0]) && !es[0].TryTake? && !es[0].Refused? && RunsPlain(c, Step(c, s, es[0]), es[1..], r)
  }

  // The semaphore that a FIFO stands for: its value is the number of bytes.
  function Meant(f: Fifo): State {
    State(|f.bytes|, map[], f.waiting, f.holders, multiset{}, f.dead, f.lost)
  }

  // Each can do what the other can, in lock step.
  lemma {:induction false} FifoStep(c: Config, f: Fifo, e: Event)
    requires !c.undo && c.retry && !e.TryTake? && !e.Refused?
    ensures EnabledFifo(f, e) <==> Enabled(Meant(f), e)
    ensures EnabledFifo(f, e) ==> Meant(StepFifo(f, e)) == Step(c, Meant(f), e)
  {
    assert Meant(f).adj - {e.p} == map[];
  }

  lemma {:induction false} FifoRun(c: Config, f: Fifo, es: seq<Event>, s: State)
    requires !c.undo && c.retry
    ensures RunsPlain(c, Meant(f), es, s) <==> exists g :: RunsFifo(f, es, g) && Meant(g) == s
    decreases |es|
  {
    if es == [] {
      assert RunsFifo(f, es, f);
    } else if !es[0].TryTake? && !es[0].Refused? {
      FifoStep(c, f, es[0]);
      if EnabledFifo(f, es[0]) {
        var f1 := StepFifo(f, es[0]);
        FifoRun(c, f1, es[1..], s);
        if RunsPlain(c, Meant(f1), es[1..], s) {
          var g :| RunsFifo(f1, es[1..], g) && Meant(g) == s;
          assert RunsFifo(f, es, g);
        }
      }
    }
  }

  // The FIFO simulates the System V semaphore without SEM_UNDO that retries
  // after a signal, and is simulated by it: the same schedules are possible,
  // and after each the bytes in the FIFO are the semaphore's value.
  lemma {:induction false} FifoIsSemaphore(c: Config, es: seq<Event>, s: State)
    requires !c.undo && c.retry
    ensures RunsPlain(c, Init(c), es, s) <==>
            exists g :: RunsFifo(InitFifo(c.available, c.owner), es, g) && Meant(g) == s
  {
    FifoRun(c, InitFifo(c.available, c.owner), es, s);
  }

  predicate DisciplinedFifo(f: Fifo, es: seq<Event>)
    decreases |es|
  {
    es != [] && EnabledFifo(f, es[0]) ==>
      (es[0].Put? ==> es[0].p in f.holders) && DisciplinedFifo(StepFifo(f, es[0]), es[1..])
  }

  lemma {:induction false} FifoDisciplined(c: Config, f: Fifo, es: seq<Event>, g: Fifo)
    requires !c.undo && c.retry && RunsFifo(f, es, g) && DisciplinedFifo(f, es)
    ensures Runs(c, Meant(f), es, Meant(g))
    decreases |es|
  {
    if es != [] {
      FifoStep(c, f, es[0]);
      FifoDisciplined(c, StepFifo(f, es[0]), es[1..], g);
    }
  }

  // So it is one token as well: with processes that release only what they
  // reserved, the FIFO and the processes together hold one byte, less the one
  // that died with its holder.
  lemma {:induction false} OneByte(available: bool, owner: nat, es: seq<Event>, g: Fifo, p: nat, q: nat)
    requires RunsFifo(InitFifo(available, owner), es, g) && DisciplinedFifo(InitFifo(available, owner), es)
    ensures |g.bytes| + |g.holders| + g.lost == 1
    ensures p in g.holders && q in g.holders ==> p == q && g.bytes == []
    ensures p in g.waiting && p !in g.dead ==> (EnabledFifo(g, Take(p)) <==> g.holders == multiset{} && g.lost == 0)
  {
    var c := Config(false, true, available, owner);
    FifoDisciplined(c, InitFifo(available, owner), es, g);
    OneToken(c, es, Meant(g), p, q);
  }
}
