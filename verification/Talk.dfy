/**
  The chat of 46-6-talk_server.c and 46-6-talk_client.c as a transition system:
  one message queue into the server, a roster, and one queue into each client.
  A client is named by its pid, and so is its private queue; each pid logs in
  at most once. Its signal handler may run at any time after it is installed,
  also before the login is sent: it removes the queue, sends LOGOUT and ends the
  client.
 */
module Talk {
  import opened Sequences

  // LOGIN_MSG is type 1, LOGOUT_MSG type 2, TEXT_MSG type 3.
  datatype Msg = Login(pid: nat) | Logout(pid: nat) | Text(pid: nat, body: nat) {
    function Type(): nat {
      if Login? then 1 else if Logout? then 2 else 3
    }
  }

  // queue, alive and the four sets of pids describe the clients and the kernel:
  // alive holds the pids whose private queue exists. roster is the linked list
  // after header, and msg the message received last. While mid, the server is
  // sending it on and p->next is roster[at].
  // The rest is history: sent lists every text put in the server's queue, taken
  // counts those the server has received, put[c] lists what went into the queue
  // of c, joined[c] and left[c] are the values of taken when c entered and left
  // the roster (left counts only texts sent to c), loggedOff and dropped say why
  // it left.
  datatype State = State(
    queue: seq<Msg>, alive: set<nat>,
    sentIn: set<nat>, closed: set<nat>, sentOut: set<nat>, quit: set<nat>,
    roster: seq<nat>, msg: Msg, mid: bool, at: nat, stopped: bool,
    sent: seq<Msg>, taken: nat, put: map<nat, seq<Msg>>,
    joined: map<nat, nat>, left: map<nat, nat>, loggedOff: set<nat>, dropped: set<nat>)

  function Init(): State {
    State([], {}, {}, {}, {}, {}, [], Text(0, 0), false, 0, false, [], 0, map[], map[], map[], {}, {})
  }

  datatype Event =
    | SendLogin(c: nat)           // client lines 77 to 88
    | SendText(c: nat, body: nat) // client lines 116 to 125
    | CloseQueue(c: nat)          // client line 158, in the handler
    | SendLogout(c: nat)          // client lines 161 to 164
    | Quit(c: nat, clean: bool)   // a send timed out, or the process was killed
    | Receive                     // server line 84 and the branches after it
    | SendOn                      // server line 123 succeeds
    | TimeOut                     // server lines 125 to 132
    | EndText                     // server line 120, the list is exhausted
    | Stop                        // another send error (line 135), or a signal

  // The message that msgrcv with type -3 takes: the first of the lowest type.
  function Pick(q: seq<Msg>): (k: nat)
    requires q != []
    ensures k < |q|
    ensures forall j | 0 <= j < |q| :: q[k].Type() <= q[j].Type()
    ensures forall j | 0 <= j < k :: q[k].Type() < q[j].Type()
  {
    if |q| == 1 then 0
    else
      var k := Pick(q[1..]);
      if q[0].Type() <= q[1..][k].Type() then 0
      else
        assert forall j | 1 <= j < |q| :: q[j] == q[1..][j - 1];
        k + 1
  }

  // The roster after the first node with this pid is unlinked (lines 104 to 115).
  function Unlink(roster: seq<nat>, pid: nat): seq<nat> {
    if roster == [] then []
    else if roster[0] == pid then roster[1..]
    else [roster[0]] + Unlink(roster[1..], pid)
  }

  predicate Enabled(s: State, e: Event) {
    !s.stopped &&
    match e
    case SendLogin(c) => c !in s.sentIn && c !in s.quit && c !in s.closed
    case SendText(c, _) => c in s.sentIn && c !in s.quit && c !in s.closed
    case CloseQueue(c) => c !in s.quit && c !in s.closed
    case SendLogout(c) => c in s.closed && c !in s.quit
    case Quit(c, _) => c !in s.quit
    case Receive => !s.mid && s.queue != []
    case SendOn => s.mid && s.at < |s.roster| && s.roster[s.at] in s.alive && s.roster[s.at] in s.put
    case TimeOut => s.mid && s.at < |s.roster| && s.roster[s.at] in s.alive && s.taken > 0
    case EndText => s.mid && s.at >= |s.roster|
    case Stop => true
  }

  function Step(s: State, e: Event): State
    requires Enabled(s, e)
  {
    match e
    case SendLogin(c) => s.(queue := s.queue + [Login(c)], sentIn := s.sentIn + {c}, alive := s.alive + {c})
    case SendText(c, body) => s.(queue := s.queue + [Text(c, body)], sent := s.sent + [Text(c, body)])
    case CloseQueue(c) => s.(closed := s.closed + {c}, alive := s.alive - {c})
    case SendLogout(c) => s.(queue := s.queue + [Logout(c)], sentOut := s.sentOut + {c}, quit := s.quit + {c})
    case Quit(c, clean) => s.(quit := s.quit + {c}, alive := if clean then s.alive - {c} else s.alive)
    case Receive => Process(s.(queue := Without(s.queue, Pick(s.queue)), msg := s.queue[Pick(s.queue)]))
    case SendOn =>
      var c := s.roster[s.at];
      s.(put := s.put[c := s.put[c] + [s.msg]], at := s.at + 1)
    case TimeOut =>
      var c := s.roster[s.at];
      s.(roster := Without(s.roster, s.at), alive := s.alive - {c},
         left := s.left[c := s.taken - 1], dropped := s.dropped + {c})
    case EndText => s.(mid := false)
    case Stop => s.(stopped := true)
  }

  // What the server does with the message it received.
  function Process(s: State): State {
    match s.msg
    case Login(c) =>
      s.(roster := [c] + s.roster, joined := s.joined[c := s.taken], put := s.put[c := []])
    case Logout(c) =>
      s.(roster := Unlink(s.roster, c), loggedOff := s.loggedOff + {c},
         left := if c in s.roster then s.left[c := s.taken] else s.left)
    case Text(_, _) => s.(mid := true, at := 0, taken := s.taken + 1)
  }

  // ---------------------------------------------------------- the invariant

  function Texts(q: seq<Msg>): seq<Msg> {
    if q == [] then [] else (if q[0].Text? then [q[0]] else []) + Texts(q[1..])
  }

  ghost predicate NoRepeat(s: seq<nat>) {
    forall i, j | 0 <= i < j < |s| :: s[i] != s[j]
  }

  // How many texts, from the start of sent, client c has been sent or missed.
  ghost function End(s: State, c: nat): int {
    if c in s.left then s.left[c]
    else if s.mid && s.at <= |s.roster| && c !in s.roster[..s.at] then s.taken - 1
    else s.taken
  }

  // What the pending messages say about client c.
  ghost predicate ClientOk(s: State, c: nat) {
    && multiset(s.queue)[Login(c)] == (if c in s.sentIn && c !in s.joined then 1 else 0)
    && multiset(s.queue)[Logout(c)] == (if c in s.sentOut && c !in s.loggedOff then 1 else 0)
    && (c in s.joined ==> c in s.sentIn)
    && (c in s.loggedOff ==> c in s.sentOut && (c in s.sentIn ==> c in s.joined))
    && (c in s.sentOut ==> c in s.closed && c in s.quit)
    && (c in s.dropped ==> c in s.joined)
    && (c in s.left <==> c in s.joined && (c in s.loggedOff || c in s.dropped))
    && (c in s.roster <==> c in s.joined && c !in s.left)
    && (c in s.put <==> c in s.joined)
  }

  // What went into c's queue is an unbroken stretch of the texts sent.
  ghost predicate StretchOk(s: State, c: nat) {
    c in s.joined ==>
      && c in s.put && s.joined[c] <= End(s, c) <= s.taken <= |s.sent|
      && s.sent[..End(s, c)] == s.sent[..s.joined[c]] + s.put[c]
  }

  ghost predicate Shape(s: State) {
    && s.taken <= |s.sent| && s.sent == s.sent[..s.taken] + Texts(s.queue)
    && NoRepeat(s.roster)
    && (s.mid ==> 0 < s.taken && s.msg == s.sent[s.taken - 1] && s.at <= |s.roster|)
  }

  ghost predicate Inv(s: State) {
    Shape(s) && forall c: nat :: ClientOk(s, c) && StretchOk(s, c)
  }

  // ------------------------------------------------------------ small lemmas

  lemma {:induction false} TextsConcat(q: seq<Msg>, r: seq<Msg>)
    ensures Texts(q + r) == Texts(q) + Texts(r)
  {
    if q == [] {
      assert q + r == r;
    } else {
      var first := if q[0].Text? then [q[0]] else [];
      assert (q + r)[0] == q[0] && (q + r)[1..] == q[1..] + r;
      TextsConcat(q[1..], r);
      assert first + (Texts(q[1..]) + Texts(r)) == first + Texts(q[1..]) + Texts(r);
    }
  }

  lemma {:induction false} TextsOne(m: Msg)
    ensures Texts([m]) == if m.Text? then [m] else []
  {
    assert [m][1..] == [];
  }

  lemma {:induction false} WithoutCounts(q: seq<Msg>, k: nat)
    requires k < |q|
    ensures multiset(Without(q, k)) == multiset(q) - multiset{q[k]}
  {
    assert q == q[..k] + [q[k]] + q[k + 1..];
  }

  lemma {:induction false} WithoutTexts(q: seq<Msg>, k: nat)
    requires k < |q| && !q[k].Text?
    ensures Texts(Without(q, k)) == Texts(q)
    decreases k
  {
    if k == 0 {
      assert Without(q, 0) == q[1..];
    } else {
      assert Without(q, k)[0] == q[0] && Without(q, k)[1..] == Without(q[1..], k - 1);
      WithoutTexts(q[1..], k - 1);
    }
  }

  // Nothing pending has a lower type than the message taken.
  lemma {:induction false} PickLeast(q: seq<Msg>, m: Msg)
    requires q != [] && m in q
    ensures q[Pick(q)].Type() <= m.Type()
  {
    var j :| 0 <= j < |q| && q[j] == m;
  }

  // When a text is taken nothing but texts is pending, and it is the oldest.
  lemma {:induction false} TextMeansAll(q: seq<Msg>)
    requires q != [] && q[Pick(q)].Text?
    ensures Pick(q) == 0 && forall m | m in q :: m.Text?
  {
    forall m | m in q ensures m.Text? { PickLeast(q, m); }
    PickLeast(q, q[0]);
  }

  lemma {:induction false} UnlinkMeans(r: seq<nat>, pid: nat, c: nat)
    requires NoRepeat(r)
    ensures NoRepeat(Unlink(r, pid))
    ensures c in Unlink(r, pid) <==> c in r && c != pid
  {
    if r != [] && r[0] != pid {
      UnlinkMeans(r[1..], pid, c);
      UnlinkMeans(r[1..], pid, r[0]);
      assert c in r <==> c == r[0] || c in r[1..];
    } else if r != [] {
      assert c in r <==> c == r[0] || c in r[1..];
    }
  }

  lemma {:induction false} WithoutMeans(r: seq<nat>, k: nat, c: nat)
    requires NoRepeat(r) && k < |r|
    ensures NoRepeat(Without(r, k)) && Without(r, k)[..k] == r[..k]
    ensures c in Without(r, k) <==> c in r && c != r[k]
  {
    assert c in r <==> c in r[..k] || c == r[k] || c in r[k + 1..] by {
      assert r == r[..k] + [r[k]] + r[k + 1..];
    }
  }

  // ---------------------------------------------------------- every step

  lemma {:induction false} InitInv()
    ensures Inv(Init())
  {
  }

  predicate ByClient(e: Event) {
    e.SendLogin? || e.SendText? || e.CloseQueue? || e.SendLogout? || e.Quit?
  }

  lemma {:induction false} ClientStep(s: State, e: Event)
    requires Inv(s) && Enabled(s, e) && ByClient(e)
    ensures Inv(Step(s, e))
  {
    var r := Step(s, e);
    ClientEventShape(s, e);
    forall c: nat ensures ClientOk(r, c) && StretchOk(r, c) {
      assert ClientOk(s, c) && StretchOk(s, c);
      assert ClientOk(s, e.c);
      ClientEventOk(s, e, c);
      ClientEventStretch(s, e, c);
    }
  }

  // The texts sent stay the ones taken and then those pending.
  lemma {:induction false} SendTexts(sent: seq<Msg>, taken: nat, q: seq<Msg>, m: Msg)
    requires taken <= |sent| && sent == sent[..taken] + Texts(q)
    ensures !m.Text? ==> Texts(q + [m]) == Texts(q)
    ensures m.Text? ==> (sent + [m])[..taken] == sent[..taken] && sent + [m] == sent[..taken] + Texts(q + [m])
  {
    TextsConcat(q, [m]);
    TextsOne(m);
    if m.Text? {
      Associative(sent[..taken], Texts(q), m);
      assert (sent + [m])[..taken] == sent[..taken];
    } else {
      assert Texts(q) + [] == Texts(q);
    }
  }

  lemma {:induction false} Associative(a: seq<Msg>, b: seq<Msg>, m: Msg)
    ensures a + b + [m] == a + (b + [m])
  {
  }

  lemma {:induction false} SendShape(s: State, m: Msg)
    requires Shape(s)
    ensures Shape(s.(queue := s.queue + [m], sent := if m.Text? then s.sent + [m] else s.sent))
  {
    SendTexts(s.sent, s.taken, s.queue, m);
  }

  lemma {:induction false} ClientEventShape(s: State, e: Event)
    requires Shape(s) && Enabled(s, e) && ByClient(e)
    ensures Shape(Step(s, e))
  {
    match e
    case SendLogin(c) => SendShape(s, Login(c));
    case SendText(c, body) => SendShape(s, Text(c, body));
    case SendLogout(c) => SendShape(s, Logout(c));
    case _ =>
  }

  lemma {:induction false} ClientEventOk(s: State, e: Event, c: nat)
    requires Enabled(s, e) && ByClient(e) && ClientOk(s, c) && ClientOk(s, e.c)
    ensures ClientOk(Step(s, e), c)
  {
  }

  lemma {:induction false} ClientEventStretch(s: State, e: Event, c: nat)
    requires Enabled(s, e) && ByClient(e) && StretchOk(s, c)
    ensures StretchOk(Step(s, e), c)
  {
  }

  // The message that Receive takes leaves the queue.
  lemma {:induction false} Taken(s: State, k: nat)
    requires Inv(s) && s.queue != [] && k == Pick(s.queue)
    ensures multiset(Without(s.queue, k)) == multiset(s.queue) - multiset{s.queue[k]}
    ensures multiset(s.queue)[s.queue[k]] > 0
    ensures !s.queue[k].Text? ==> Texts(Without(s.queue, k)) == Texts(s.queue)
    ensures ClientOk(s, s.queue[k].pid)
  {
    WithoutCounts(s.queue, k);
    if !s.queue[k].Text? { WithoutTexts(s.queue, k); }
    assert s.queue[k] in multiset(s.queue);
  }

  lemma {:induction false} ReceiveLogin(s: State)
    requires Inv(s) && Enabled(s, Receive) && s.queue[Pick(s.queue)].Login?
    ensures Inv(Step(s, Receive))
  {
    var r := Step(s, Receive);
    Taken(s, Pick(s.queue));
    assert Shape(r);
    forall c: nat ensures ClientOk(r, c) && StretchOk(r, c) {
      assert ClientOk(s, c) && StretchOk(s, c);
      LoginOk(s, c);
      LoginStretch(s, c);
    }
  }

  lemma {:induction false} LoginOk(s: State, c: nat)
    requires Inv(s) && Enabled(s, Receive) && s.queue[Pick(s.queue)].Login? && ClientOk(s, c)
    ensures ClientOk(Step(s, Receive), c)
  {
    var r, pid := Step(s, Receive), s.queue[Pick(s.queue)].pid;
    Taken(s, Pick(s.queue));
    assert c in r.roster <==> c == pid || c in s.roster;
  }

  lemma {:induction false} LoginStretch(s: State, c: nat)
    requires Inv(s) && Enabled(s, Receive) && s.queue[Pick(s.queue)].Login? && StretchOk(s, c) && ClientOk(s, c)
    ensures StretchOk(Step(s, Receive), c)
  {
    Taken(s, Pick(s.queue));
  }

  // A logout is taken only when no login is pending, so its sender has joined if
  // it ever sent a login.
  lemma {:induction false} LogoutAfterLogin(s: State)
    requires Inv(s) && s.queue != [] && s.queue[Pick(s.queue)].Logout?
    ensures s.queue[Pick(s.queue)].pid in s.sentIn ==> s.queue[Pick(s.queue)].pid in s.joined
  {
    var c := s.queue[Pick(s.queue)].pid;
    Taken(s, Pick(s.queue));
    if Login(c) in s.queue { PickLeast(s.queue, Login(c)); }
    assert multiset(s.queue)[Login(c)] == 0;
  }

  lemma {:induction false} ReceiveLogout(s: State)
    requires Inv(s) && Enabled(s, Receive) && s.queue[Pick(s.queue)].Logout?
    ensures Inv(Step(s, Receive))
  {
    var r := Step(s, Receive);
    Taken(s, Pick(s.queue));
    UnlinkMeans(s.roster, s.queue[Pick(s.queue)].pid, 0);
    assert Shape(r);
    forall c: nat ensures ClientOk(r, c) && StretchOk(r, c) {
      assert ClientOk(s, c) && StretchOk(s, c);
      LogoutOk(s, c);
      LogoutStretch(s, c);
    }
  }

  lemma {:induction false} LogoutOk(s: State, c: nat)
    requires Inv(s) && Enabled(s, Receive) && s.queue[Pick(s.queue)].Logout? && ClientOk(s, c)
    ensures ClientOk(Step(s, Receive), c)
  {
    Taken(s, Pick(s.queue));
    LogoutAfterLogin(s);
    UnlinkMeans(s.roster, s.queue[Pick(s.queue)].pid, c);
  }

  lemma {:induction false} LogoutStretch(s: State, c: nat)
    requires Inv(s) && Enabled(s, Receive) && s.queue[Pick(s.queue)].Logout? && StretchOk(s, c) && ClientOk(s, c)
    ensures StretchOk(Step(s, Receive), c)
  {
    Taken(s, Pick(s.queue));
  }

  lemma {:induction false} ReceiveText(s: State)
    requires Inv(s) && Enabled(s, Receive) && s.queue[Pick(s.queue)].Text?
    ensures Inv(Step(s, Receive)) && s.taken < |s.sent| && s.queue[Pick(s.queue)] == s.sent[s.taken]
  {
    var r := Step(s, Receive);
    TextShape(s);
    forall c: nat ensures ClientOk(r, c) && StretchOk(r, c) {
      assert ClientOk(s, c) && StretchOk(s, c);
      TextOk(s, c);
    }
  }

  lemma {:induction false} TextShape(s: State)
    requires Shape(s) && Enabled(s, Receive) && s.queue[Pick(s.queue)].Text?
    ensures Shape(Step(s, Receive)) && s.taken < |s.sent| && s.queue[Pick(s.queue)] == s.sent[s.taken]
  {
    TextMeansAll(s.queue);
    assert Without(s.queue, 0) == s.queue[1..];
    var rest := Texts(s.queue[1..]);
    assert Texts(s.queue) == [s.queue[0]] + rest && s.sent[s.taken] == s.queue[0];
    assert s.sent == s.sent[..s.taken + 1] + rest;
  }

  lemma {:induction false} TextOk(s: State, c: nat)
    requires Inv(s) && Enabled(s, Receive) && s.queue[Pick(s.queue)].Text? && StretchOk(s, c) && ClientOk(s, c)
    ensures ClientOk(Step(s, Receive), c) && StretchOk(Step(s, Receive), c)
  {
    TextShape(s);
    Taken(s, Pick(s.queue));
  }

  lemma {:induction false} SendStep(s: State)
    requires Inv(s) && Enabled(s, SendOn)
    ensures Inv(Step(s, SendOn))
  {
    var r, p := Step(s, SendOn), s.roster[s.at];
    assert r.roster[..r.at] == s.roster[..s.at] + [p];
    forall c: nat ensures ClientOk(r, c) && StretchOk(r, c) {
      assert ClientOk(s, c) && StretchOk(s, c);
      assert p !in s.roster[..s.at];
      assert p in s.roster;
    }
  }

  lemma {:induction false} TimeOutStep(s: State)
    requires Inv(s) && Enabled(s, TimeOut)
    ensures Inv(Step(s, TimeOut))
  {
    var r, p := Step(s, TimeOut), s.roster[s.at];
    WithoutMeans(s.roster, s.at, p);
    forall c: nat ensures ClientOk(r, c) && StretchOk(r, c) {
      assert ClientOk(s, c) && StretchOk(s, c);
      WithoutMeans(s.roster, s.at, c);
      assert p in s.roster && p !in s.roster[..s.at];
    }
  }

  lemma {:induction false} EndStep(s: State, e: Event)
    requires Inv(s) && Enabled(s, e) && (e.EndText? || e.Stop?)
    ensures Inv(Step(s, e))
  {
    var r := Step(s, e);
    forall c: nat ensures ClientOk(r, c) && StretchOk(r, c) {
      assert ClientOk(s, c) && StretchOk(s, c);
      if s.at == |s.roster| { assert s.roster[..s.at] == s.roster; }
    }
  }

  lemma {:induction false} StepKeeps(s: State, e: Event)
    requires Inv(s) && Enabled(s, e)
    ensures Inv(Step(s, e))
  {
    if ByClient(e) {
      ClientStep(s, e);
    } else if e.Receive? {
      var m := s.queue[Pick(s.queue)];
      if m.Login? { ReceiveLogin(s); } else if m.Logout? { ReceiveLogout(s); } else { ReceiveText(s); }
    } else if e.SendOn? {
      SendStep(s);
    } else if e.TimeOut? {
      TimeOutStep(s);
    } else {
      EndStep(s, e);
    }
  }

  // --------------------------------------------------------- whole runs

  ghost predicate Runs(s: State, es: seq<Event>, r: State)
    decreases |es|
  {
    if es == [] then s == r else Enabled(s, es[0]) && Runs(Step(s, es[0]), es[1..], r)
  }

  lemma {:induction false} RunKeeps(s: State, es: seq<Event>, r: State)
    requires Inv(s) && Runs(s, es, r)
    ensures Inv(r)
    decreases |es|
  {
    if es != [] {
      StepKeeps(s, es[0]);
      RunKeeps(Step(s, es[0]), es[1..], r);
    }
  }

  // The broadcast is totally ordered. In every run, what has been put in a
  // client's queue is one unbroken stretch of the texts in the order they were
  // sent: from those received when it joined, to those received when it left.
  // A client still on the roster has been sent all, or all but the text under
  // way (which a stop may leave unfinished).
  lemma {:induction false} TotalOrder(es: seq<Event>, r: State, c: nat)
    requires Runs(Init(), es, r) && c in r.joined
    ensures c in r.put && r.taken <= |r.sent|
    ensures exists end :: r.joined[c] <= end <= r.taken && r.put[c] == r.sent[r.joined[c]..end]
                          && (c in r.left ==> end == r.left[c])
                          && (c !in r.left ==> end == r.taken || (r.mid && end == r.taken - 1))
  {
    InitInv();
    RunKeeps(Init(), es, r);
    assert StretchOk(r, c);
    var end := End(r, c);
    assert r.sent[..end] == r.sent[..r.joined[c]] + r.put[c];
    assert r.put[c] == r.sent[r.joined[c]..end];
  }

  // Whenever the server takes a text, no login and no logout is pending, and
  // the roster is exactly the clients that sent LOGIN and have not sent
  // LOGOUT, less those dropped.
  lemma {:induction false} RosterAtText(es: seq<Event>, s: State, c: nat)
    requires Runs(Init(), es, s) && Enabled(s, Receive) && s.queue[Pick(s.queue)].Text?
    ensures forall m | m in s.queue :: m.Text?
    ensures NoRepeat(s.roster)
    ensures c in s.roster <==> c in s.sentIn && c !in s.sentOut && c !in s.dropped
    ensures s.taken < |s.sent| && s.queue[Pick(s.queue)] == s.sent[s.taken]
  {
    InitInv();
    RunKeeps(Init(), es, s);
    TextMeansAll(s.queue);
    ReceiveText(s);
    assert ClientOk(s, c);
    assert Login(c) !in s.queue && Logout(c) !in s.queue;
    assert multiset(s.queue)[Login(c)] == 0 && multiset(s.queue)[Logout(c)] == 0;
  }

  // A login is never received after the same client's logout: when a logout is
  // received its sender's login was received before, or there is none and will
  // be none. Each client has at most one of either pending.
  lemma {:induction false} LoginFirst(es: seq<Event>, s: State, c: nat)
    requires Runs(Init(), es, s)
    ensures c in s.loggedOff ==> (c in s.joined <==> c in s.sentIn)
    ensures c in s.loggedOff ==> Login(c) !in s.queue && !Enabled(s, SendLogin(c))
    ensures multiset(s.queue)[Login(c)] <= 1 && multiset(s.queue)[Logout(c)] <= 1
    ensures s.queue != [] && s.queue[Pick(s.queue)] == Logout(c) ==>
              (c in s.joined <==> c in s.sentIn) && Login(c) !in s.queue && !Enabled(s, SendLogin(c))
  {
    InitInv();
    RunKeeps(Init(), es, s);
    assert ClientOk(s, c);
    if c in s.loggedOff {
      assert multiset(s.queue)[Login(c)] == 0;
      assert Login(c) !in s.queue;
    }
    if s.queue != [] && s.queue[Pick(s.queue)] == Logout(c) {
      LogoutAfterLogin(s);
      Taken(s, Pick(s.queue));
      if Login(c) in s.queue { PickLeast(s.queue, Login(c)); }
    }
  }

  // The guards of SendOn that keep Step well defined never hold it back: a
  // server in the middle of a text can send on whenever the queue is there.
  lemma {:induction false} SendGuardsHold(es: seq<Event>, s: State)
    requires Runs(Init(), es, s) && s.mid && !s.stopped && s.at < |s.roster|
    ensures Enabled(s, SendOn) <==> s.roster[s.at] in s.alive
    ensures Enabled(s, TimeOut) <==> s.roster[s.at] in s.alive
  {
    InitInv();
    RunKeeps(Init(), es, s);
    assert ClientOk(s, s.roster[s.at]);
    assert s.roster[s.at] in s.roster;
  }

  predicate ByServer(e: Event) {
    e.Receive? || e.SendOn? || e.TimeOut? || e.EndText? || e.Stop?
  }

  // The server never hangs: while there is a message to take or to send on, and
  // the queue to send it to has not been removed, the server can do more than
  // stop.
  lemma {:induction false} ServerGoesOn(es: seq<Event>, s: State) returns (e: Event)
    requires Runs(Init(), es, s) && !s.stopped && (s.mid || s.queue != [])
    requires s.mid && s.at < |s.roster| ==> s.roster[s.at] in s.alive
    ensures ByServer(e) && e != Stop && Enabled(s, e)
  {
    if s.mid && s.at < |s.roster| { SendGuardsHold(es, s); }
    e := if !s.mid then Receive else if s.at < |s.roster| then SendOn else EndText;
  }

  // How many of the events are the server's.
  function ServerSteps(es: seq<Event>): nat {
    if es == [] then 0 else (if ByServer(es[0]) then 1 else 0) + ServerSteps(es[1..])
  }

  // And it does not send one text for ever: with n clients still ahead it is
  // done, or has stopped, after n steps and EndText, whatever the clients do.
  lemma {:induction false} TextEnds(s: State, es: seq<Event>, r: State)
    requires Inv(s) && s.mid && Runs(s, es, r) && EndText !in es && Stop !in es
    ensures r.mid && ServerSteps(es) <= |s.roster| - s.at
    decreases |es|
  {
    if es != [] {
      StepKeeps(s, es[0]);
      assert es[0] in es && forall e | e in es[1..] :: e in es;
      TextEnds(Step(s, es[0]), es[1..], r);
    }
  }

  // A client removes its own queue before it sends LOGOUT. When the server
  // reaches it in between, stopping is all the server can do; and there is a
  // run, of one client, that gets there.
  lemma {:induction false} ClosedQueueStopsServer(s: State, e: Event)
    requires s.mid && s.at < |s.roster| && s.roster[s.at] !in s.alive
    requires Enabled(s, e) && ByServer(e)
    ensures e == Stop
  {
  }

  ghost predicate Reachable(s: State) {
    exists es :: Runs(Init(), es, s)
  }

  lemma {:induction false} RunsOn(s: State, es: seq<Event>, r: State, e: Event)
    requires Runs(s, es, r) && Enabled(r, e)
    ensures Runs(s, es + [e], Step(r, e))
    decreases |es|
  {
    if es == [] {
      assert es + [e] == [e] && [e][1..] == [];
      assert Runs(Step(s, e), [], Step(r, e));
    } else {
      assert (es + [e])[1..] == es[1..] + [e];
      RunsOn(Step(s, es[0]), es[1..], r, e);
    }
  }

  lemma {:induction false} ReachNext(s: State, e: Event)
    requires Reachable(s) && Enabled(s, e)
    ensures Reachable(Step(s, e))
  {
    var es :| Runs(Init(), es, s);
    RunsOn(Init(), es, s, e);
  }

  // The texts of one client, as events and as messages.
  function Sends(c: nat, bodies: seq<nat>): seq<Event> {
    if bodies == [] then [] else [SendText(c, bodies[0])] + Sends(c, bodies[1..])
  }

  function Sent(c: nat, bodies: seq<nat>): seq<Msg> {
    if bodies == [] then [] else [Text(c, bodies[0])] + Sent(c, bodies[1..])
  }

  // The state with these texts behind all that is pending.
  function Behind(s: State, ms: seq<Msg>): State {
    s.(queue := s.queue + ms, sent := s.sent + ms)
  }

  lemma {:induction false} BehindMore(s: State, ms: seq<Msg>, more: seq<Msg>)
    ensures Behind(Behind(s, ms), more) == Behind(s, ms + more) && Behind(s, []) == s
  {
    assert s.queue + ms + more == s.queue + (ms + more) && s.sent + ms + more == s.sent + (ms + more);
    assert s.queue + [] == s.queue && s.sent + [] == s.sent;
  }

  // A client waits for no answer: once its login is sent it can send any number
  // of texts, whatever the server is doing.
  lemma {:induction false} TextsAnyTime(s: State, c: nat, bodies: seq<nat>)
    requires !s.stopped && c in s.sentIn && c !in s.closed && c !in s.quit
    ensures Runs(s, Sends(c, bodies), Behind(s, Sent(c, bodies)))
    decreases |bodies|
  {
    if bodies == [] {
      BehindMore(s, [], []);
    } else {
      var m := Text(c, bodies[0]);
      TextsAnyTime(Behind(s, [m]), c, bodies[1..]);
      BehindMore(s, [m], Sent(c, bodies[1..]));
      assert Sends(c, bodies)[1..] == Sends(c, bodies[1..]);
    }
  }

  // And it can leave at any time before it has: its queue goes first, and then
  // its logout is pending.
  lemma {:induction false} LeavesAnyTime(s: State, c: nat) returns (r: State)
    requires !s.stopped && c !in s.closed && c !in s.quit
    ensures Runs(s, [CloseQueue(c), SendLogout(c)], r)
    ensures r == s.(queue := s.queue + [Logout(c)], alive := s.alive - {c}, closed := s.closed + {c},
                    sentOut := s.sentOut + {c}, quit := s.quit + {c})
  {
    var m := Step(s, CloseQueue(c));
    r := Step(m, SendLogout(c));
    assert [CloseQueue(c), SendLogout(c)][1..] == [SendLogout(c)] && [SendLogout(c)][1..] == [];
    assert Runs(r, [], r) && Runs(m, [SendLogout(c)], r);
  }

  // A client that has ended does nothing more, and its queue, if it left one,
  // stays until the server gives it up; one that is gone does not come back.
  lemma {:induction false} GoneForGood(s: State, es: seq<Event>, r: State, c: nat)
    requires c in s.quit && Runs(s, es, r)
    ensures c in r.quit && forall e | e in es && ByClient(e) :: e.c != c
    ensures if c in s.alive then c in r.alive || c in r.dropped else c !in r.alive
    decreases |es|
  {
    if es != [] {
      var m := Step(s, es[0]);
      GoneForGood(m, es[1..], r, c);
      assert forall e | e in es :: e == es[0] || e in es[1..];
      if c in s.alive && c !in m.alive { StaysDropped(m, es[1..], r, c); }
    }
  }

  lemma {:induction false} StaysDropped(s: State, es: seq<Event>, r: State, c: nat)
    requires c in s.dropped && Runs(s, es, r)
    ensures c in r.dropped
    decreases |es|
  {
    if es != [] { StaysDropped(Step(s, es[0]), es[1..], r, c); }
  }

  // An exit takes the queue with it, for ever; a kill leaves it behind.
  lemma {:induction false} HowItEnds(s: State, c: nat, clean: bool, es: seq<Event>, r: State)
    requires Enabled(s, Quit(c, clean)) && Runs(Step(s, Quit(c, clean)), es, r)
    ensures c in r.alive ==> !clean && c in s.alive
    ensures !clean && c in s.alive ==> c in r.alive || c in r.dropped
  {
    GoneForGood(Step(s, Quit(c, clean)), es, r, c);
  }

  lemma {:induction false} ReceiveOnly(s: State, m: Msg)
    requires !s.stopped && !s.mid && s.queue == [m]
    ensures Enabled(s, Receive) && Step(s, Receive) == Process(s.(queue := [], msg := m))
  {
    assert Pick(s.queue) == 0 && Without(s.queue, 0) == [];
  }

  // One client has sent its login, and nothing else has happened.
  lemma {:induction false} OneSent(c: nat) returns (s: State)
    ensures Reachable(s) && s == Init().(queue := [Login(c)], sentIn := {c}, alive := {c})
  {
    assert Runs(Init(), [], Init());
    ReachNext(Init(), SendLogin(c));
    s := Step(Init(), SendLogin(c));
  }

  // One client is logged in, and nothing else has happened.
  lemma {:induction false} OneJoined(c: nat) returns (s: State)
    ensures Reachable(s) && s.queue == [] && s.sentIn == {c} && s.quit == {} && s.closed == {} && s.alive == {c}
    ensures !s.stopped && !s.mid && s.roster == [c] && c in s.put && s.put[c] == [] && s.taken == 0
  {
    var s1 := OneSent(c);
    ReceiveOnly(s1, Login(c));
    ReachNext(s1, Receive);
    s := Step(s1, Receive);
    assert s.roster == [c] + s1.roster == [c];
  }

  lemma {:induction false} ClosedQueueReached(c: nat, body: nat)
    ensures exists s :: Reachable(s) && s.mid && s.at < |s.roster| && s.roster[s.at] !in s.alive
  {
    var s2 := OneJoined(c);
    ReachNext(s2, SendText(c, body));
    var s3 := Step(s2, SendText(c, body));
    ReachNext(s3, CloseQueue(c));
    var s4 := Step(s3, CloseQueue(c));
    ReceiveOnly(s4, Text(c, body));
    ReachNext(s4, Receive);
    var s5 := Step(s4, Receive);
    assert s5.mid && s5.at == 0 && s5.roster == [c] && c !in s5.alive;
  }

  // A logout without a login is real: a signal while the client waits to send
  // its login has the server receive LOGOUT from a pid it never hears of again.
  lemma {:induction false} LogoutAlone(c: nat)
    ensures exists s :: Reachable(s) && c in s.loggedOff && c !in s.joined
  {
    assert Runs(Init(), [], Init());
    ReachNext(Init(), CloseQueue(c));
    var s1 := Step(Init(), CloseQueue(c));
    ReachNext(s1, SendLogout(c));
    var s2 := Step(s1, SendLogout(c));
    ReceiveOnly(s2, Logout(c));
    ReachNext(s2, Receive);
    var s3 := Step(s2, Receive);
    assert c in s3.loggedOff && c !in s3.joined;
  }

  // Nor does every text reach everyone who was logged in: a client whose queue
  // stays full is dropped, and misses the text under way.
  lemma {:induction false} TextMissed(c: nat, body: nat)
    ensures exists s :: Reachable(s) && c in s.dropped && c in s.put && s.put[c] == [] && s.taken == 1
  {
    var s2 := OneJoined(c);
    ReachNext(s2, SendText(c, body));
    var s3 := Step(s2, SendText(c, body));
    ReceiveOnly(s3, Text(c, body));
    ReachNext(s3, Receive);
    var s4 := Step(s3, Receive);
    ReachNext(s4, TimeOut);
    var s5 := Step(s4, TimeOut);
    assert c in s5.dropped && s5.put[c] == [] && s5.taken == 1;
  }
}
