/**
  one_time_init of 31-1-one_time_init.c, called any number of times by any
  number of threads. Memory is sequentially consistent, so the read of inited
  without the lock is a step like the others.
 */
module OneTimeInit {

  // Where a thread is: outside, before line 12, 14, 16, inside init(), before
  // line 19, before line 22.
  datatype Pc = Outside | Look | Lock | LookAgain | Inside | SetFlag | Unlock

  // running counts the calls of init that have begun, done those that have
  // returned; calls and returned count those of one_time_init.
  datatype State = State(inited: bool, owner: int, pc: seq<Pc>, running: nat, done: nat, calls: nat, returned: nat)

  const NOBODY := -1

  function Init(threads: nat): State {
    State(false, NOBODY, seq(threads, _ => Outside), 0, 0, 0, 0)
  }

  predicate Enabled(s: State, t: nat) {
    t < |s.pc| && (s.pc[t] == Lock ==> s.owner == NOBODY)
  }

  function At(s: State, t: nat, pc: Pc): State
    requires t < |s.pc|
  {
    s.(pc := s.pc[t := pc])
  }

  function Step(s: State, t: nat): State
    requires Enabled(s, t)
  {
    match s.pc[t]
    case Outside => At(s, t, Look).(calls := s.calls + 1)
    case Look => if s.inited then At(s, t, Outside).(returned := s.returned + 1) else At(s, t, Lock)
    case Lock => At(s, t, LookAgain).(owner := t)
    case LookAgain => if s.inited then At(s, t, Unlock) else At(s, t, Inside).(running := s.running + 1)
    case Inside => At(s, t, SetFlag).(done := s.done + 1)
    case SetFlag => At(s, t, Unlock).(inited := true)
    case Unlock => At(s, t, Outside).(owner := NOBODY, returned := s.returned + 1)
  }

  predicate Runs(s: State, schedule: seq<nat>, r: State)
    decreases |schedule|
  {
    if schedule == [] then s == r
    else Enabled(s, schedule[0]) && Runs(Step(s, schedule[0]), schedule[1..], r)
  }

  // ------------------------------------------------------------ every run

  predicate HasLock(pc: Pc) {
    pc.LookAgain? || pc.Inside? || pc.SetFlag? || pc.Unlock?
  }

  ghost predicate Inv(s: State) {
    && (s.owner == NOBODY || (0 <= s.owner < |s.pc| && HasLock(s.pc[s.owner])))
    && (forall t | 0 <= t < |s.pc| && HasLock(s.pc[t]) :: t == s.owner)
    && (if s.inited then s.running == 1 && s.done == 1
        else if s.owner != NOBODY && s.pc[s.owner].Inside? then s.running == 1 && s.done == 0
        else if s.owner != NOBODY && s.pc[s.owner].SetFlag? then s.running == 1 && s.done == 1
        else s.running == 0 && s.done == 0)
    && (s.owner != NOBODY && s.pc[s.owner].Unlock? ==> s.inited)
    && (s.owner != NOBODY && (s.pc[s.owner].Inside? || s.pc[s.owner].SetFlag?) ==> !s.inited)
    && (s.returned > 0 ==> s.inited)
  }

  lemma {:induction false} InitInv(threads: nat)
    ensures Inv(Init(threads))
  {
  }

  lemma {:induction false} StepKeeps(s: State, t: nat)
    requires Inv(s) && Enabled(s, t)
    ensures Inv(Step(s, t))
  {
  }

  lemma {:induction false} RunKeeps(s: State, schedule: seq<nat>, r: State)
    requires Inv(s) && Runs(s, schedule, r)
    ensures Inv(r) && |r.pc| == |s.pc|
    decreases |schedule|
  {
    if schedule != [] {
      StepKeeps(s, schedule[0]);
      RunKeeps(Step(s, schedule[0]), schedule[1..], r);
    }
  }

  // In every run init is called at most once, and no call of one_time_init
  // returns before that one call has returned.
  lemma {:induction false} OnceAndBefore(threads: nat, schedule: seq<nat>, s: State)
    requires Runs(Init(threads), schedule, s)
    ensures s.done <= s.running <= 1
    ensures s.returned > 0 ==> s.done == 1
  {
    InitInv(threads);
    RunKeeps(Init(threads), schedule, s);
  }

  // A thread is held up only at the lock, and then by another that can go on:
  // so whenever a call is under way, some call under way can take a step.
  lemma {:induction false} NoDeadlock(threads: nat, schedule: seq<nat>, s: State, t: nat) returns (u: nat)
    requires Runs(Init(threads), schedule, s) && t < |s.pc| && s.pc[t] != Outside
    ensures u < |s.pc| && s.pc[u] != Outside && Enabled(s, u)
    ensures u != t ==> s.pc[t] == Lock && s.owner == u
  {
    InitInv(threads);
    RunKeeps(Init(threads), schedule, s);
    u := if Enabled(s, t) then t else s.owner;
  }

  // Once init has been done, a call that begins never comes to the lock.
  lemma {:induction false} NoLockAfterwards(s: State, schedule: seq<nat>, r: State, t: nat)
    requires s.inited && t < |s.pc| && (s.pc[t] == Outside || s.pc[t] == Look) && Runs(s, schedule, r)
    ensures r.inited && t < |r.pc| && (r.pc[t] == Outside || r.pc[t] == Look)
    decreases |schedule|
  {
    if schedule != [] {
      NoLockAfterwards(Step(s, schedule[0]), schedule[1..], r, t);
    }
  }

  // How many calls are under way.
  function UnderWay(pc: seq<Pc>): nat {
    if pc == [] then 0 else (if pc[0] == Outside then 0 else 1) + UnderWay(pc[1..])
  }

  lemma {:induction false} SetUnderWay(pc: seq<Pc>, t: nat, to: Pc)
    requires t < |pc|
    ensures UnderWay(pc[t := to]) == UnderWay(pc) - (if pc[t] == Outside then 0 else 1) + (if to == Outside then 0 else 1)
    decreases t
  {
    if t == 0 {
      assert pc[0 := to][1..] == pc[1..];
    } else {
      assert pc[t := to][1..] == pc[1..][t - 1 := to];
      SetUnderWay(pc[1..], t - 1, to);
    }
  }

  lemma {:induction false} RunBalances(s: State, schedule: seq<nat>, r: State)
    requires Runs(s, schedule, r)
    ensures r.calls - r.returned - UnderWay(r.pc) == s.calls - s.returned - UnderWay(s.pc)
    decreases |schedule|
  {
    if schedule != [] {
      var m := Step(s, schedule[0]);
      SetUnderWay(s.pc, schedule[0], m.pc[schedule[0]]);
      RunBalances(m, schedule[1..], r);
    }
  }

  lemma {:induction false} NoneUnderWay(threads: nat)
    ensures UnderWay(Init(threads).pc) == 0
    decreases threads
  {
    if threads > 0 {
      NoneUnderWay(threads - 1);
      assert Init(threads).pc[1..] == Init(threads - 1).pc;
    }
  }

  // Each call returns once: those begun are those returned and those under way.
  // So when none is under way and there was one, init has been done.
  lemma {:induction false} EachReturns(threads: nat, schedule: seq<nat>, s: State)
    requires Runs(Init(threads), schedule, s)
    ensures s.calls == s.returned + UnderWay(s.pc)
    ensures UnderWay(s.pc) == 0 && s.calls > 0 ==> s.done == 1
  {
    NoneUnderWay(threads);
    RunBalances(Init(threads), schedule, s);
    OnceAndBefore(threads, schedule, s);
  }

  // ------------------------------------------------------- how long it takes

  // The most steps that a call still has before it.
  function Left(pc: Pc): nat {
    match pc
    case Outside => 0
    case Look => 6
    case Lock => 5
    case LookAgain => 4
    case Inside => 3
    case SetFlag => 2
    case Unlock => 1
  }

  function AllLeft(pc: seq<Pc>): nat {
    if pc == [] then 0 else Left(pc[0]) + AllLeft(pc[1..])
  }

  lemma {:induction false} SetLeft(pc: seq<Pc>, t: nat, to: Pc)
    requires t < |pc|
    ensures AllLeft(pc[t := to]) == AllLeft(pc) - Left(pc[t]) + Left(to)
    decreases t
  {
    if t == 0 {
      assert pc[0 := to][1..] == pc[1..];
    } else {
      assert pc[t := to][1..] == pc[1..][t - 1 := to];
      SetLeft(pc[1..], t - 1, to);
    }
  }

  lemma {:induction false} StepLeft(s: State, t: nat)
    requires Enabled(s, t)
    ensures 7 * (Step(s, t).calls - s.calls) >= AllLeft(Step(s, t).pc) - AllLeft(s.pc) + 1
  {
    SetLeft(s.pc, t, Step(s, t).pc[t]);
  }

  lemma {:induction false} RunLeft(s: State, schedule: seq<nat>, r: State)
    requires Runs(s, schedule, r)
    ensures 7 * (r.calls - s.calls) >= AllLeft(r.pc) - AllLeft(s.pc) + |schedule|
    decreases |schedule|
  {
    if schedule != [] {
      StepLeft(s, schedule[0]);
      RunLeft(Step(s, schedule[0]), schedule[1..], r);
    }
  }

  lemma {:induction false} NothingLeft(threads: nat)
    ensures AllLeft(Init(threads).pc) == 0
    decreases threads
  {
    if threads > 0 {
      NothingLeft(threads - 1);
      assert Init(threads).pc[1..] == Init(threads - 1).pc;
    }
  }

  // However the threads interleave, n calls are over within 7 n steps.
  lemma {:induction false} CallsAreShort(threads: nat, schedule: seq<nat>, s: State)
    requires Runs(Init(threads), schedule, s)
    ensures |schedule| <= 7 * s.calls
  {
    NothingLeft(threads);
    RunLeft(Init(threads), schedule, s);
  }
}
