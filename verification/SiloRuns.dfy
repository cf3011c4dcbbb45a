/** io/silo.cc: what holds over whole runs of the event loop, and runs on which what one would expect fails. */
module SiloRuns {
  import opened Basics
  import opened Silos

  /** A request is the only thing that tells the gate it was requested. */
  lemma {:induction false} Unrequested(hist: seq<Event>, dir: Dir, h: Handle, i: nat, n: nat)
    requires i < n <= |hist| && hist[i] == Called(dir, h)
    requires forall m :: i < m < n ==> hist[m] != Requested(dir, h)
    ensures !GateOf(hist[..n], dir, h).requested
    decreases n
  {
    assert hist[..n][..n - 1] == hist[..n - 1];
    if n > i + 1 {
      Unrequested(hist, dir, h, i, n - 1);
    }
  }

  /** A gate shut by a suspension stays shut until a request. */
  lemma {:induction false} Shut(hist: seq<Event>, dir: Dir, h: Handle, i: nat, j: nat, n: nat)
    requires i < j < n <= |hist| && Honoured(hist)
    requires hist[i] == Called(dir, h) && hist[j] == Returned(dir, h, Suspend)
    requires forall m :: i < m < n ==> hist[m] != Requested(dir, h)
    ensures GateOf(hist[..n], dir, h).suspended
    decreases n
  {
    assert hist[..n][..n - 1] == hist[..n - 1];
    Unrequested(hist, dir, h, i, n - 1);
    if n > j + 1 {
      Shut(hist, dir, h, i, j, n - 1);
    }
  }

  /** Through gates that are kept, a suspended direction is called again only after a request. */
  lemma SuspensionIsKept(hist: seq<Event>, dir: Dir, h: Handle, i: nat, j: nat, k: nat)
    requires Honoured(hist) && i < j < k < |hist|
    requires hist[i] == Called(dir, h) && hist[j] == Returned(dir, h, Suspend) && hist[k] == Called(dir, h)
    ensures exists m :: i < m < k && hist[m] == Requested(dir, h)
  {
    if forall m :: i < m < k ==> hist[m] != Requested(dir, h) {
      Shut(hist, dir, h, i, j, k);
      assert false;
    }
  }

  /**
   * The suspend contract, over every run: once HandleRead (HandleWrite) returned kSuspend for an FD, it is called for
   * that FD again only if RequestRead (RequestWrite) was made for it after that call had started.
   */
  lemma SuspendContract(turns: seq<Turn>, env: seq<Script>, dir: Dir, h: Handle, i: nat, j: nat, k: nat)
    requires var hist := Execution(Start(), turns, env).state.hist;
      i < j < k < |hist| && hist[i] == Called(dir, h) && hist[j] == Returned(dir, h, Suspend) && hist[k] == Called(dir, h)
    ensures var hist := Execution(Start(), turns, env).state.hist;
      exists m :: i < m < k && hist[m] == Requested(dir, h)
  {
    var p := Execution(Start(), turns, env);
    assert p.state.Sound();
    SuspensionIsKept(p.state.hist, dir, h, i, j, k);
  }

  /** No accepting HandleIdle asks for the activation or ejection of any FD. */
  ghost predicate QuietIdle(turn: Turn) {
    turn.idle.Accepted? ==> forall h: Handle :: !Relinked(turn.idle.requests, h)
  }

  /** On every such run no hook is pushed while linked. */
  lemma {:induction false} NoCollision(s: State, turns: seq<Turn>, env: seq<Script>)
    requires s.Sound() && forall i :: 0 <= i < |turns| ==> QuietIdle(turns[i])
    ensures !Execution(s, turns, env).status.Collided?
    decreases |turns|
  {
    if turns != [] {
      var p := Cycle(s, turns[0], env);
      assert QuietIdle(turns[0]);
      if p.status.Running? {
        NoCollision(p.state, turns[1..], p.env);
      }
    }
    hide State.Sound, Cycle, Relinked;
  }

  lemma FirstIdler(env: seq<Script>)
    ensures var p := Cycle(Start(), Turn([], NotExpired, [Add]), env);
      p.status.Running? && p.env == env && p.state.lists == Links([], [0], [], [], []) && p.state.perfds == map[0 := FRESH]
  {
    var s := Start();
    assert Closed(s) == s;
    assert s.AskedAll([Add]) == (s.Added(), true);
  }

  /** An FD that its HandleIdle both requests and accepts is pushed on the idlers list while it is on the active list. */
  lemma Collides(s: State, h: Handle)
    requires s.Sound() && s.lists.active == [] && s.lists.runners == [] && s.lists.ejects == []
    requires s.lists.idlers == [h] && h in s.perfds
    ensures Cycle(s, Turn([], Accepted([Activate(Read, h)]), []), []).status.Collided?
  {
    var rs := [Activate(Read, h)];
    assert Worked(s, [], []) == Progress(s, [], Running);
    assert Relinked(rs, h) by {
      assert Relinks(rs[0], h);
    }
    s.Unlinked(h);
    hide State.Sound, Links.Ok, State.Activated, Worked;
    var t := s.(lists := s.lists.Erase(h));
    assert t.AskedAll(rs) == (t.Activated(Read, h), true);
  }

  lemma CollisionHappens()
    ensures Execution(Start(), [Turn([], NotExpired, [Add]), Turn([], Accepted([Activate(Read, 0)]), [])], []).status.Collided?
  {
    var first, second := Turn([], NotExpired, [Add]), Turn([], Accepted([Activate(Read, 0)]), []);
    FirstIdler([]);
    hide State.Sound, Start, Cycle, Execution;
    Collides(Cycle(Start(), first, []).state, 0);
    TwoPasses(Start(), first, second, []);
  }

  /** Over every run: each handle issued is live, or was freed exactly once and is never live again. */
  lemma FreedOnce(turns: seq<Turn>, env: seq<Script>, h: Handle)
    ensures var s := Execution(Start(), turns, env).state;
      h < s.next <==> h in s.perfds || exists i :: 0 <= i < |s.freed| && s.freed[i] == h
    ensures var s := Execution(Start(), turns, env).state;
      forall i, j :: 0 <= i < |s.freed| && 0 <= j < |s.freed| && s.freed[i] == s.freed[j] ==> i == j && s.freed[i] !in s.perfds
  {
    var s := Execution(Start(), turns, env).state;
    assert s.Sound();
    assert h in s.freed <==> exists i :: 0 <= i < |s.freed| && s.freed[i] == h;
    hide Gated, Links.Ok, Execution;
  }

  /**
   * After its turn an FD is active, idle, being ejected or closing, unless it is a runner that no request has linked:
   * then it is put on neither list, whatever it returned. Otherwise it stays active exactly if it still wants something.
   */
  lemma TurnKeepsListed(s: State, h: Handle)
    requires s.Sound() && h in s.perfds
    ensures var l := s.Settled(h).lists;
      l.Linked(h) || h in l.closers <==> s.lists.Linked(h) || h !in s.lists.runners
    ensures var l := s.Settled(h).lists; !s.lists.Linked(h) && !s.lists.SharedLinked(h) ==>
      && (h in l.active <==> s.perfds[h].wantsRead || s.perfds[h].wantsWrite)
      && (h in l.idlers <==> !s.perfds[h].wantsRead && !s.perfds[h].wantsWrite)
  {}

  const YIELDING := Script([Request.Run(0)], Yield)
  const NOTHING := Script([], FdEagain)

  /** One FD, on the given runners list only, that wants to read and has n functions queued. */
  ghost predicate Only(s: State, active: seq<Handle>, runners: seq<Handle>, n: nat) {
    && s.Sound() && s.lists == Links(active, [], [], runners, [])
    && s.perfds == map[0 := FRESH.SetWants(Read, true).(fns := n)]
  }

  /** Its handler queues a function on it and yields. */
  lemma YieldsInCall(s: State)
    requires Only(s, [], [], 0)
    ensures var (t, alive) := s.Served(Read, 0, YIELDING); alive && Only(t, [], [0], 1)
  {
    hide State.Sound, InCall;
    var called := s.Entered(Read, 0);
    assert called.AskedAll([Request.Run(0)]) == (called.Asked(Request.Run(0)), true) by {
      hide State.Asked;
      assert called.Asked(Request.Run(0)).AskedAll([]).1;
    }
  }

  /** So its turn ends with it on the runners list alone. */
  lemma YieldsAsRunner(s: State)
    requires Only(s, [0], [], 0)
    ensures var p := Actives(s, [YIELDING, NOTHING]);
      p.env == [NOTHING] && p.status.Running? && Only(p.state, [], [0], 1)
  {
    s.Unlinked(0);
    hide State.Sound, State.Served;
    var t := s.(lists := s.lists.Erase(0));
    assert t.lists == Links([], [], [], [], []);
    YieldsInCall(t);
    var left := t.Served(Read, 0, YIELDING).0;
    assert Serve(t, [YIELDING, NOTHING], Read, 0) == Progress(left, [NOTHING], Running);
    assert Activate1(s, [YIELDING, NOTHING]) == Progress(left, [NOTHING], Running);
  }

  /** Running the function unlinks the FD from the runners list, and nothing puts it on another. */
  lemma RunsToNowhere(s: State)
    requires Only(s, [], [0], 1)
    ensures var p := Runners(s, [NOTHING]); p.env == [] && p.status.Running? && Only(p.state, [], [], 0)
  {
    s.Unlinked(0);
    var t := s.(lists := s.lists.EraseShared(0));
    assert t.lists == Links([], [], [], [], []);
    t.Changed(0, t.perfds[0].(fns := 0));
    hide State.Sound;
    var popped := t.(perfds := t.perfds[0 := t.perfds[0].(fns := 0)]);
    assert popped.AskedAll([]) == (popped, true);
    assert Drained(popped, [], 0) == Progress(popped, [], Running);
    assert Drained(t, [NOTHING], 0) == Progress(popped, [], Running);
    assert Run1(s, [NOTHING]) == Progress(popped, [], Running);
  }

  lemma ForgottenAtWork(s: State)
    requires Only(s, [0], [], 0)
    ensures var p := Busy(s, [YIELDING, NOTHING]); p.status.Running? && p.env == [] && Only(p.state, [], [], 0)
  {
    YieldsAsRunner(s);
    hide State.Sound, Actives, Runners;
    var p := Actives(s, [YIELDING, NOTHING]);
    RunsToNowhere(p.state);
    var q := Runners(p.state, p.env);
    assert Busy(s, [YIELDING, NOTHING]) == q;
  }

  lemma InputActivates(s: State)
    requires s.Sound() && s.lists == Links([], [0], [], [], []) && s.perfds == map[0 := FRESH]
    ensures var (t, ok) := ReportedAll(s, [Ready(0, false, true, false)]); ok && Only(t, [0], [], 0)
  {
    hide State.Sound;
    var e := Ready(0, false, true, false);
    var (t, ok) := Reported(s, e);
    assert ok && t.lists == Links([0], [], [], [], []) && t.perfds == map[0 := FRESH.SetWants(Read, true).(fns := 0)];
    hide Reported;
    assert ReportedAll(t, []) == (t, true);
    assert ReportedAll(s, [e]) == ReportedAll(t, []);
  }

  lemma ForgottenInCycle(s: State)
    requires s.Sound() && s.lists == Links([], [0], [], [], []) && s.perfds == map[0 := FRESH]
    ensures var p := Cycle(s, Turn([Ready(0, false, true, false)], NotExpired, []), [YIELDING, NOTHING]);
      p.status.Running? && Only(p.state, [], [], 0)
  {
    InputActivates(s);
    hide State.Sound, ReportedAll, Busy;
    var t := ReportedAll(s, [Ready(0, false, true, false)]).0;
    ForgottenAtWork(t);
    var p := Busy(t, [YIELDING, NOTHING]);
    assert Ejecters(p.state, []) == Progress(p.state, [], Running);
    assert Closed(p.state) == p.state;
    assert p.state.AskedAll([]) == (p.state, true);
  }

  /**
   * A two-pass run after which a handler that called Run for its own FD and returned kYield is never called again
   * unless something new happens to the FD: it is live and wants to read, and is on no list.
   */
  lemma YieldForgotten()
    ensures var turns := [Turn([], NotExpired, [Add]), Turn([Ready(0, false, true, false)], NotExpired, [])];
      var p := Execution(Start(), turns, [YIELDING, NOTHING]);
      && p.status.Running? && 0 in p.state.perfds && p.state.perfds[0].wantsRead
      && !p.state.lists.Linked(0) && !p.state.lists.SharedLinked(0)
  {
    var first, second := Turn([], NotExpired, [Add]), Turn([Ready(0, false, true, false)], NotExpired, []);
    var env := [YIELDING, NOTHING];
    FirstIdler(env);
    hide State.Sound, Start, Cycle, Execution;
    var p := Cycle(Start(), first, env);
    ForgottenInCycle(p.state);
    TwoPasses(Start(), first, second, env);
  }

  lemma TwoPasses(s: State, first: Turn, second: Turn, env: seq<Script>)
    requires s.Sound()
    ensures var p := Cycle(s, first, env);
      p.status.Running? ==> Execution(s, [first, second], env) == Cycle(p.state, second, p.env)
  {
    hide State.Sound, Cycle;
    var turns := [first, second];
    var p := Cycle(s, first, env);
    if p.status.Running? {
      var q := Cycle(p.state, second, p.env);
      assert Execution(q.state, [], q.env) == Progress(q.state, q.env, Running);
      assert turns[1..] == [second];
      assert Execution(p.state, [second], p.env) == q;
    }
  }

  /** Eject is honoured exactly when the FD's hook is unlinked: an FD on the idlers or active list stays there. */
  lemma EjectIsHonoured(s: State, h: Handle)
    requires s.Sound() && h in s.perfds && h !in s.lists.ejects
    ensures h in s.Asked(Eject(h)).lists.ejects <==> !s.lists.Linked(h)
    ensures s.lists.Linked(h) ==> s.Asked(Eject(h)) == s
  {}
}
