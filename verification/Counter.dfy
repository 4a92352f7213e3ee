/**
  Two threads that each run the loop of 30-1-changed_simple_thread.c: read the
  shared counter, then write it back one larger, with nothing to keep the two
  accesses together. The values that the counter can hold after both joins are
  found exactly.
 */
module Counter {

  // A thread that has completed j iterations; read holds its loc when it is
  // between the read and the write of the next.
  datatype Read = No | Loc(loc: int)
  datatype Thread = Thread(j: nat, read: Read)

  datatype State = State(glob: int, a: Thread, b: Thread)

  function Init(): State {
    State(0, Thread(0, No), Thread(0, No))
  }

  function Of(s: State, first: bool): Thread {
    if first then s.a else s.b
  }

  function With(s: State, first: bool, t: Thread, glob: int): State {
    if first then State(glob, t, s.b) else State(glob, s.a, t)
  }

  predicate Running(loops: nat, s: State, first: bool) {
    Of(s, first).j < loops
  }

  // One access to the counter by one thread.
  function Step(s: State, first: bool): State {
    var t := Of(s, first);
    match t.read
    case No => With(s, first, Thread(t.j, Loc(s.glob)), s.glob)
    case Loc(loc) => With(s, first, Thread(t.j + 1, No), loc + 1)
  }

  // A schedule says which thread makes each access.
  predicate Runs(loops: nat, s: State, schedule: seq<bool>, r: State)
    decreases |schedule|
  {
    if schedule == [] then s == r
    else Running(loops, s, schedule[0]) && Runs(loops, Step(s, schedule[0]), schedule[1..], r)
  }

  predicate Joined(loops: nat, s: State) {
    s.a.j == loops && s.b.j == loops
  }

  // v is a value main can print.
  ghost predicate Final(loops: nat, v: int) {
    exists schedule, r :: Runs(loops, Init(), schedule, r) && Joined(loops, r) && r.glob == v
  }

  // ------------------------------------------------------- no other values

  // Every write stores at most the number of writes so far; once one thread
  // has written, nobody reads less than 1; and a thread past its first
  // iteration stores at least 2.
  ghost predicate ThreadOk(s: State, t: Thread) {
    t.read.Loc? ==> 0 <= t.read.loc <= s.a.j + s.b.j && (t.j >= 1 ==> t.read.loc >= 1)
  }

  ghost predicate Inv(loops: nat, s: State) {
    && s.a.j <= loops && s.b.j <= loops
    && (s.a.j == loops ==> s.a.read == No) && (s.b.j == loops ==> s.b.read == No)
    && 0 <= s.glob <= s.a.j + s.b.j && (s.a.j + s.b.j > 0 ==> s.glob >= 1)
    && ThreadOk(s, s.a) && ThreadOk(s, s.b)
    && (loops >= 2 && Joined(loops, s) ==> s.glob >= 2)
  }

  lemma {:induction false} StepKeeps(loops: nat, s: State, first: bool)
    requires Inv(loops, s) && Running(loops, s, first)
    ensures Inv(loops, Step(s, first))
  {
  }

  lemma {:induction false} RunKeeps(loops: nat, s: State, schedule: seq<bool>, r: State)
    requires Inv(loops, s) && Runs(loops, s, schedule, r)
    ensures Inv(loops, r)
    decreases |schedule|
  {
    if schedule != [] {
      StepKeeps(loops, s, schedule[0]);
      RunKeeps(loops, Step(s, schedule[0]), schedule[1..], r);
    }
  }

  lemma {:induction false} FinalBounds(loops: nat, v: int)
    requires loops > 0 && Final(loops, v)
    ensures v <= 2 * loops && v >= if loops == 1 then 1 else 2
  {
    var schedule, r :| Runs(loops, Init(), schedule, r) && Joined(loops, r) && r.glob == v;
    RunKeeps(loops, Init(), schedule, r);
  }

  // --------------------------------------------------- every one of them

  lemma {:induction false} RunsJoin(loops: nat, s: State, x: seq<bool>, m: State, y: seq<bool>, r: State)
    requires Runs(loops, s, x, m) && Runs(loops, m, y, r)
    ensures Runs(loops, s, x + y, r)
    decreases |x|
  {
    if x == [] {
      assert x + y == y;
    } else {
      assert (x + y)[1..] == x[1..] + y;
      RunsJoin(loops, Step(s, x[0]), x[1..], m, y, r);
    }
  }

  lemma {:induction false} OneStep(loops: nat, s: State, first: bool)
    requires Running(loops, s, first)
    ensures Runs(loops, s, [first], Step(s, first))
  {
    assert [first][1..] == [];
    assert Runs(loops, Step(s, first), [], Step(s, first));
  }

  // n whole iterations of one thread.
  function Alone(s: State, first: bool, n: nat): State {
    With(s, first, Thread(Of(s, first).j + n, No), s.glob + n)
  }

  lemma {:induction false} AloneRuns(loops: nat, s: State, first: bool, n: nat) returns (x: seq<bool>)
    requires Of(s, first).read == No && Of(s, first).j + n <= loops
    ensures Runs(loops, s, x, Alone(s, first, n))
    decreases n
  {
    if n == 0 {
      x := [];
    } else {
      var m := Step(Step(s, first), first);
      OneStep(loops, s, first);
      OneStep(loops, Step(s, first), first);
      RunsJoin(loops, s, [first], Step(s, first), [first], m);
      var y := AloneRuns(loops, m, first, n - 1);
      x := ([first] + [first]) + y;
      RunsJoin(loops, s, [first] + [first], m, y, Alone(s, first, n));
    }
  }

  // The first thread reads 0; the second makes p iterations; the first writes
  // 1 over them; the second reads 1; the first makes q iterations; the second
  // writes 2 over them; both finish alone.
  lemma {:induction false} Overwrite(loops: nat, p: nat, q: nat) returns (x: seq<bool>, r: State)
    requires p < loops && q < loops
    ensures Runs(loops, Init(), x, r) && Joined(loops, r)
    ensures r.glob == 2 * loops - p - q
  {
    var s1 := Step(Init(), true);
    OneStep(loops, Init(), true);
    var y1 := AloneRuns(loops, s1, false, p);
    var s2 := Alone(s1, false, p);
    RunsJoin(loops, Init(), [true], s1, y1, s2);
    var s3 := Step(s2, true);
    OneStep(loops, s2, true);
    var s4 := Step(s3, false);
    OneStep(loops, s3, false);
    RunsJoin(loops, s2, [true], s3, [false], s4);
    var y5 := AloneRuns(loops, s4, true, q);
    var s5 := Alone(s4, true, q);
    RunsJoin(loops, s2, [true] + [false], s4, y5, s5);
    RunsJoin(loops, Init(), [true] + y1, s2, [true] + [false] + y5, s5);
    var s6 := Step(s5, false);
    OneStep(loops, s5, false);
    var y7 := AloneRuns(loops, s6, true, loops - 1 - q);
    var s7 := Alone(s6, true, loops - 1 - q);
    RunsJoin(loops, s5, [false], s6, y7, s7);
    var y8 := AloneRuns(loops, s7, false, loops - 1 - p);
    r := Alone(s7, false, loops - 1 - p);
    RunsJoin(loops, s5, [false] + y7, s7, y8, r);
    x := [true] + y1 + ([true] + [false] + y5) + ([false] + y7 + y8);
    RunsJoin(loops, Init(), [true] + y1 + ([true] + [false] + y5), s5, [false] + y7 + y8, r);
  }

  // With one iteration each, both threads may read 0.
  lemma {:induction false} BothReadZero() returns (x: seq<bool>, r: State)
    ensures Runs(1, Init(), x, r) && Joined(1, r) && r.glob == 1
  {
    var s1, s2 := Step(Init(), true), Step(Step(Init(), true), false);
    var s3 := Step(s2, true);
    r := Step(s3, false);
    OneStep(1, Init(), true);
    OneStep(1, s1, false);
    OneStep(1, s2, true);
    OneStep(1, s3, false);
    RunsJoin(1, Init(), [true], s1, [false], s2);
    RunsJoin(1, s2, [true], s3, [false], r);
    x := [true] + [false] + ([true] + [false]);
    RunsJoin(1, Init(), [true] + [false], s2, [true] + [false], r);
  }

  // The values main can print are exactly 2 to 2 * loops; 1 and 2 when each
  // thread makes one iteration.
  lemma {:induction false} FinalValues(loops: nat, v: int)
    requires loops > 0
    ensures Final(loops, v) <==> (if loops == 1 then 1 else 2) <= v <= 2 * loops
  {
    if Final(loops, v) {
      FinalBounds(loops, v);
    }
    if 2 <= v <= 2 * loops {
      var lost := 2 * loops - v;
      var p := if lost < loops then lost else loops - 1;
      var x, r := Overwrite(loops, p, lost - p);
      assert Runs(loops, Init(), x, r) && Joined(loops, r) && r.glob == v;
    } else if loops == 1 && v == 1 {
      var x, r := BothReadZero();
      assert Runs(loops, Init(), x, r) && Joined(loops, r) && r.glob == v;
    }
  }

  // No run is endless: 4 * loops accesses and both threads are done.
  lemma {:induction false} RunLength(loops: nat, s: State, schedule: seq<bool>, r: State)
    requires Inv(loops, s) && Runs(loops, s, schedule, r)
    ensures |schedule| + Left(loops, r) == Left(loops, s)
    decreases |schedule|
  {
    if schedule != [] {
      StepKeeps(loops, s, schedule[0]);
      RunLength(loops, Step(s, schedule[0]), schedule[1..], r);
    }
  }

  // The accesses still to be made.
  function Left(loops: nat, s: State): int {
    2 * (loops - s.a.j) - (if s.a.read.Loc? then 1 else 0) + 2 * (loops - s.b.j) - if s.b.read.Loc? then 1 else 0
  }

  // Every run makes at most 4 * loops accesses, has joined exactly when it has
  // made them all, and can go on until then.
  lemma {:induction false} EveryRunEnds(loops: nat, schedule: seq<bool>, r: State)
    requires Runs(loops, Init(), schedule, r)
    ensures |schedule| <= 4 * loops
    ensures Joined(loops, r) <==> |schedule| == 4 * loops
    ensures !Joined(loops, r) ==> Running(loops, r, true) || Running(loops, r, false)
  {
    RunKeeps(loops, Init(), schedule, r);
    RunLength(loops, Init(), schedule, r);
  }
}
