/**
 * io/silo.cc: what epoll reports, requests and outcomes bring about, up to the calls of the handlers. An FD that waits
 * for a call is on the active list and wants the direction; a pass does not end before the call was made or excused.
 */
module SiloCalls {
  import opened Basics
  import opened Silos

  // ---- What single operations do ----

  /** A report without error sets exactly the wants whose flag it carries and that are not squelched. */
  lemma ReportSetsWants(s: State, e: Ready)
    requires s.Sound() && e.h in s.perfds && !e.error
    ensures var (t, ok) := Reported(s, e); var p, q := s.perfds[e.h], t.perfds[e.h];
      && ok
      && (q.Wants(Read) <==> p.wantsRead || (e.input && !p.squelchReads))
      && (q.Wants(Write) <==> p.wantsWrite || (e.output && !p.squelchWrites))
      && (forall dir :: q.Squelched(dir) == p.Squelched(dir)) && q.fns == p.fns
      && (q.Wants(Read) || q.Wants(Write) ==> e.h in t.lists.active)
      && t.perfds.Keys == s.perfds.Keys && t.hist == s.hist
      && forall x <- s.perfds :: x != e.h ==> t.perfds[x] == s.perfds[x]
  {
    hide Gated, Links.Ok, State.Sound;
  }

  /** What each outcome means for the FD, and that it means nothing for any other. */
  lemma OutcomeMeans(s: State, dir: Dir, h: Handle, outcome: Outcome)
    requires s.Sound() && InCall(s.hist, s.perfds, dir, h)
    ensures var t := s.Left(dir, h, outcome); var p, q := s.perfds[h], t.perfds[h];
      && t.hist == s.hist + [Returned(dir, h, outcome)]
      && (outcome.FdEagain? ==> q == p)
      && (outcome.Yield? ==> q.Wants(dir) && q.SetWants(dir, p.Wants(dir)) == p)
      && (outcome.Suspend? ==> q.Squelched(dir) && q.SetSquelched(dir, p.Squelched(dir)) == p)
      && (outcome.Close? ==> !q.wantsRead && !q.wantsWrite && h in t.lists.closers && !t.lists.Linked(h))
      && forall x <- s.perfds :: x != h ==> t.perfds[x] == s.perfds[x]
  {
    hide Gated, Links.Ok, State.Sound, InCall;
  }

  /** A call clears its own want and nothing else before the handler runs. */
  lemma CallClearsWant(s: State, dir: Dir, h: Handle)
    requires s.Sound() && h in s.perfds && s.perfds[h].Wants(dir)
    ensures var t := s.Entered(dir, h);
      && t.hist == s.hist + [Called(dir, h)]
      && !t.perfds[h].Wants(dir) && t.perfds[h].SetWants(dir, true) == s.perfds[h]
      && forall x <- s.perfds :: x != h ==> t.perfds[x] == s.perfds[x]
  {
    hide Gated, Links.Ok, State.Sound;
  }

  /** RequestRead and RequestWrite touch the flags of their direction only. */
  lemma ActivationMeans(s: State, dir: Dir, h: Handle)
    requires s.Sound() && h in s.perfds
    ensures var t := s.Asked(Activate(dir, h));
      && t.perfds[h].Wants(dir) && !t.perfds[h].Squelched(dir) && h in t.lists.active
      && t.perfds[h].SetWants(dir, s.perfds[h].Wants(dir)).SetSquelched(dir, s.perfds[h].Squelched(dir)) == s.perfds[h]
      && t.hist == s.hist + [Requested(dir, h)]
  {
    hide Gated, Links.Ok, State.Sound;
  }

  /** Run queues one function, and makes the FD a runner unless it is closing. */
  lemma RunMeans(s: State, h: Handle)
    requires s.Sound() && h in s.perfds
    ensures var t := s.Asked(Request.Run(h));
      && t.perfds[h] == s.perfds[h].(fns := s.perfds[h].fns + 1)
      && (h in t.lists.runners <==> h !in s.lists.closers) && t.hist == s.hist
  {
    assert h in s.lists.runners ==> h !in s.lists.closers;
    hide Gated, Links.Ok, State.Sound;
  }

  lemma EjectMeans(s: State, h: Handle)
    requires s.Sound() && h in s.perfds
    ensures var t := s.Asked(Request.Eject(h));
      && (!s.lists.Linked(h) ==> h in t.lists.ejects && !t.perfds[h].wantsRead && !t.perfds[h].wantsWrite)
      && (s.lists.Linked(h) ==> t == s) && t.hist == s.hist
  {
    hide Gated, Links.Ok, State.Sound;
  }

  /** A new FD gets the next handle and waits for its first report. */
  lemma AddMeans(s: State)
    requires s.Sound()
    ensures var t := s.Asked(Add);
      if |s.perfds| >= 102_400 then t == s
      else s.next in t.lists.idlers && t.perfds == s.perfds[s.next := PerFd(false, false, false, false, 0)] && t.next == s.next + 1 && t.hist == s.hist
  {
    hide Gated, Links.Ok, State.Sound;
  }

  /** No request changes the flags or functions of an FD it does not name. */
  lemma RequestTouchesOne(s: State, r: Request, x: Handle)
    requires s.Sound() && s.Alive(r) && x in s.perfds && (r.Add? || x != r.h)
    ensures x in s.Asked(r).perfds && s.Asked(r).perfds[x] == s.perfds[x]
  {
    hide Gated, Links.Ok;
  }

  /** Draining an FD runs every function queued on it, one script entry each, and what they queue on it. */
  lemma {:induction false} EveryFunctionRuns(s: State, env: seq<Script>, h: Handle)
    requires s.Sound() && h in s.perfds
    ensures var p := Drained(s, env, h); p.status.Running? ==> |env| - |p.env| >= s.perfds[h].fns
    decreases |env|
  {
    if s.perfds[h].fns > 0 && env != [] {
      var popped := s.perfds[h].(fns := s.perfds[h].fns - 1);
      s.Changed(h, popped);
      hide State.Sound;
      var t := s.(perfds := s.perfds[h := popped]);
      FunctionsKept(t, env[0].requests, h);
      var (u, alive) := t.AskedAll(env[0].requests);
      if alive {
        EveryFunctionRuns(u, env[1..], h);
      }
    }
  }

  /** Requests never drop a queued function. */
  lemma {:induction false} FunctionsKept(s: State, rs: seq<Request>, h: Handle)
    requires s.Sound() && h in s.perfds
    ensures h in s.AskedAll(rs).0.perfds && s.AskedAll(rs).0.perfds[h].fns >= s.perfds[h].fns
    decreases |rs|
  {
    if rs != [] && s.Alive(rs[0]) {
      FunctionsKeptOnce(s, rs[0], h);
      hide State.Sound, State.Asked;
      FunctionsKept(s.Asked(rs[0]), rs[1..], h);
    }
  }

  lemma FunctionsKeptOnce(s: State, r: Request, h: Handle)
    requires s.Sound() && s.Alive(r) && h in s.perfds
    ensures h in s.Asked(r).perfds && s.Asked(r).perfds[h].fns >= s.perfds[h].fns
  {
    hide Gated, Links.Ok;
  }

  /** The idle scan moves the oldest idler to the back, or, when HandleIdle refuses the expiration, to the closers. */
  lemma IdleScanMeans(s: State, idle: Idle)
    requires s.Sound() && s.lists.idlers != []
    ensures var (t, status) := Idled(s, idle); var h := s.lists.idlers[0];
      && (idle.NotExpired? ==> status.Running? && t == s.(lists := t.lists) && t.lists.idlers == s.lists.idlers[1..] + [h])
      && (idle.Refused? && status.Running? ==> h in t.lists.closers && !t.lists.Linked(h))
      && (idle.Accepted? && status.Running? ==> h in t.lists.idlers && h !in t.lists.closers)
  {
    WithoutHead(s.lists.idlers);
    s.Unlinked(s.lists.idlers[0]);
    hide Gated, State.AskedAll, State.Doomed, Relinked;
  }

  // ---- The trace of a callback ----

  function Event1(r: Request): seq<Event> {
    if r.Activate? then [Requested(r.dir, r.h)] else []
  }

  /** The events a callback's requests leave behind. */
  function Trace(rs: seq<Request>): seq<Event> {
    if rs == [] then [] else Event1(rs[0]) + Trace(rs[1..])
  }

  /** Those of a whole stretch of the script. */
  function Traces(env: seq<Script>): seq<Event> {
    if env == [] then [] else Trace(env[0].requests) + Traces(env[1..])
  }

  lemma Regrouped(a: seq<Event>, b: seq<Event>, c: seq<Event>)
    ensures (a + b) + c == a + (b + c)
  {}

  lemma AskedOneTrace(s: State, r: Request)
    requires s.Sound() && s.Alive(r)
    ensures s.Asked(r).hist == s.hist + Event1(r)
  {
    hide Gated, Links.Ok, State.Sound;
  }

  lemma {:induction false} AskedTrace(s: State, rs: seq<Request>)
    requires s.Sound()
    ensures s.AskedAll(rs).1 ==> s.AskedAll(rs).0.hist == s.hist + Trace(rs)
    decreases |rs|
  {
    hide State.Sound, State.Asked, State.Grown, Event1;
    if rs != [] && s.Alive(rs[0]) {
      AskedOneTrace(s, rs[0]);
      AskedTrace(s.Asked(rs[0]), rs[1..]);
      Regrouped(s.hist, Event1(rs[0]), Trace(rs[1..]));
    }
  }

  lemma TracesStep(env: seq<Script>, n: nat)
    requires 0 < n <= |env|
    ensures Traces(env[..n]) == Trace(env[0].requests) + Traces(env[1..][..n - 1])
  {
    hide Trace;
    assert env[..n][1..] == env[1..][..n - 1];
  }

  /** A call is its start, its requests, and its return, in that order and nothing else. */
  lemma CallTrace(s: State, dir: Dir, h: Handle, script: Script)
    requires s.Sound() && h in s.perfds && s.perfds[h].Wants(dir)
    ensures var (t, alive) := s.Served(dir, h, script);
      alive ==> t.hist == s.hist + [Called(dir, h)] + Trace(script.requests) + [Returned(dir, h, script.outcome)]
  {
    var t := s.Entered(dir, h);
    CallClearsWant(s, dir, h);
    AskedTrace(t, script.requests);
    t.AskedInCall(script.requests, dir, h);
    var (u, alive) := t.AskedAll(script.requests);
    if alive {
      OutcomeMeans(u, dir, h, script.outcome);
    }
    hide State.Sound, InCall, State.Entered, State.AskedAll, State.Left;
  }

  /** Draining runs the next script entries in order, each from its first request to its last. */
  lemma {:induction false} DrainTrace(s: State, env: seq<Script>, h: Handle)
    requires s.Sound() && h in s.perfds
    ensures var p := Drained(s, env, h); p.status.Running? ==>
      p.env == env[|env| - |p.env|..] && p.state.hist == s.hist + Traces(env[..|env| - |p.env|])
    decreases |env|
  {
    if s.perfds[h].fns > 0 && env != [] {
      var popped := s.perfds[h].(fns := s.perfds[h].fns - 1);
      s.Changed(h, popped);
      var t := s.(perfds := s.perfds[h := popped]);
      hide State.Sound, State.AskedAll, State.Grown, Traces, Trace;
      AskedTrace(t, env[0].requests);
      var (u, alive) := t.AskedAll(env[0].requests);
      if alive {
        DrainTrace(u, env[1..], h);
        var p := Drained(u, env[1..], h);
        assert Drained(s, env, h) == p;
        if p.status.Running? {
          TracesStep(env, |env| - |p.env|);
          Regrouped(s.hist, Trace(env[0].requests), Traces(env[1..][..|env| - 1 - |p.env|]));
        }
      }
    } else {
      assert Traces([]) == [];
    }
  }

  /** HandleEject runs from its first request to its last before the FD is freed. */
  lemma EjectTrace(s: State, env: seq<Script>)
    requires s.Sound() && s.lists.ejects != []
    ensures var p := Eject1(s, env); p.status.Running? ==>
      env != [] && p.env == env[1..] && p.state.hist == s.hist + Trace(env[0].requests)
  {
    var t := s.(lists := s.lists.Erase(s.lists.ejects[0]));
    s.Unlinked(s.lists.ejects[0]);
    hide State.Sound, State.AskedAll, State.Freed;
    if env != [] {
      AskedTrace(t, env[0].requests);
    }
  }

  /** HandleIdle's requests, and those of what is admitted, are made too. */
  lemma RestTrace(s: State, turn: Turn)
    requires s.Sound()
    ensures var (t, status) := Rested(s, turn); status.Running? ==>
      t.hist == s.hist + (if turn.idle.NotExpired? || s.lists.idlers == [] then [] else Trace(turn.idle.requests))
                       + Trace(turn.admitted)
  {
    IdleTrace(s, turn.idle);
    var (t, status) := Idled(s, turn.idle);
    hide State.Sound, Idled, Closed, State.AskedAll, Relinked;
    if status.Running? {
      assert Closed(t).Shrunk(t);
      AskedTrace(Closed(t), turn.admitted);
    }
  }

  lemma IdleTrace(s: State, idle: Idle)
    requires s.Sound()
    ensures var (t, status) := Idled(s, idle); status.Running? ==>
      t.hist == s.hist + if idle.NotExpired? || s.lists.idlers == [] then [] else Trace(idle.requests)
  {
    if s.lists.idlers != [] {
      var t := s.(lists := s.lists.Erase(s.lists.idlers[0]));
      s.Unlinked(s.lists.idlers[0]);
      if !idle.NotExpired? {
        AskedTrace(t, idle.requests);
      }
      hide State.Sound, State.AskedAll, Relinked;
    }
  }

  // ---- From a want to the call ----

  ghost predicate CalledSince(from: nat, hist: seq<Event>, dir: Dir, h: Handle) {
    exists k :: from <= k < |hist| && hist[k] == Called(dir, h)
  }

  ghost predicate RequestedSince(from: nat, hist: seq<Event>, h: Handle) {
    exists k :: from <= k < |hist| && (hist[k] == Requested(Read, h) || hist[k] == Requested(Write, h))
  }

  lemma SinceGrows(from: nat, was: seq<Event>, hist: seq<Event>, dir: Dir, h: Handle)
    requires was <= hist
    ensures CalledSince(from, was, dir, h) ==> CalledSince(from, hist, dir, h)
    ensures RequestedSince(from, was, h) ==> RequestedSince(from, hist, h)
  {
  }

  /** What is being watched: calls in one direction for one FD, in the history from some point on. */
  datatype Watch = Watch(from: nat, dir: Dir, h: Handle, strict: bool) {
    ghost predicate Called(s: State) { CalledSince(from, s.hist, dir, h) }

    /** The FD closed, was ejected or died first; for a strict watch nothing excuses a missing call. */
    ghost predicate Excused(s: State) {
      !strict && (RequestedSince(from, s.hist, h) || h !in s.perfds || h in s.lists.closers || h in s.lists.ejects)
    }

    ghost predicate Answered(s: State) { Called(s) || Excused(s) }

    ghost predicate Wanted(s: State) { h in s.perfds && s.perfds[h].Wants(dir) }

    ghost predicate Waiting(s: State) { Wanted(s) && h in s.lists.active }

    ghost predicate Kept(s: State) { Started(s) && (Answered(s) || Waiting(s)) }

    ghost predicate Started(s: State) { h < s.next && from <= |s.hist| }

    /** While the FD is served, it is in no list. */
    ghost predicate InHand(s: State) { Started(s) && (Answered(s) || Wanted(s)) }
  }

  lemma JustRequested(from: nat, hist: seq<Event>, dir: Dir, h: Handle)
    requires from <= |hist|
    ensures RequestedSince(from, hist + [Requested(dir, h)], h)
  {
    assert (hist + [Requested(dir, h)])[|hist|] == Requested(dir, h);
  }

  lemma JustCalled(from: nat, hist: seq<Event>, dir: Dir, h: Handle)
    requires from <= |hist|
    ensures CalledSince(from, hist + [Called(dir, h)], dir, h)
  {
    assert (hist + [Called(dir, h)])[|hist|] == Called(dir, h);
  }

  // ---- Requests ----

  lemma AskedAnswered(w: Watch, s: State, r: Request)
    requires s.Sound() && s.Alive(r) && w.Started(s) && w.Answered(s)
    ensures w.Started(s.Asked(r)) && w.Answered(s.Asked(r))
  {
    var t := s.Asked(r);
    SinceGrows(w.from, s.hist, t.hist, w.dir, w.h);
    if r.Activate? && r.h == w.h {
      JustRequested(w.from, s.hist, r.dir, w.h);
    }
    hide Gated, Links.Ok, CalledSince, RequestedSince;
  }

  lemma AskedWaiting(w: Watch, s: State, r: Request)
    requires s.Sound() && s.Alive(r) && w.Waiting(s)
    ensures w.Waiting(s.Asked(r))
  {
    hide Gated, Links.Ok;
  }

  /** In hand, the watched FD can be taken from its caller only by a request that excuses the call. */
  lemma AskedWanted(w: Watch, s: State, r: Request)
    requires s.Sound() && s.Alive(r) && w.Started(s) && w.Wanted(s) && !w.strict
    ensures w.Answered(s.Asked(r)) || w.Wanted(s.Asked(r))
  {
    hide Gated, Links.Ok, CalledSince, RequestedSince;
  }

  lemma {:induction false} AskedAllKept(w: Watch, s: State, rs: seq<Request>)
    requires s.Sound() && w.Kept(s)
    ensures w.Kept(s.AskedAll(rs).0)
    decreases |rs|
  {
    if rs != [] && s.Alive(rs[0]) {
      if w.Answered(s) {
        AskedAnswered(w, s, rs[0]);
      } else {
        AskedWaiting(w, s, rs[0]);
      }
      hide State.Sound, State.Asked, Watch.Answered, Watch.Waiting;
      AskedAllKept(w, s.Asked(rs[0]), rs[1..]);
    }
  }

  lemma {:induction false} AskedAllInHand(w: Watch, s: State, rs: seq<Request>)
    requires s.Sound() && w.InHand(s) && !w.strict
    ensures w.InHand(s.AskedAll(rs).0)
    decreases |rs|
  {
    if rs != [] && s.Alive(rs[0]) {
      if w.Answered(s) {
        AskedAnswered(w, s, rs[0]);
      } else {
        AskedWanted(w, s, rs[0]);
      }
      hide State.Sound, State.Asked, Watch.Answered, Watch.Wanted;
      AskedAllInHand(w, s.Asked(rs[0]), rs[1..]);
    }
  }

  lemma {:induction false} AskedAllAnswered(w: Watch, s: State, rs: seq<Request>)
    requires s.Sound() && w.Started(s) && w.Answered(s)
    ensures w.Started(s.AskedAll(rs).0) && w.Answered(s.AskedAll(rs).0)
    decreases |rs|
  {
    if rs != [] && s.Alive(rs[0]) {
      AskedAnswered(w, s, rs[0]);
      hide State.Sound, State.Asked, Watch.Answered;
      AskedAllAnswered(w, s.Asked(rs[0]), rs[1..]);
    }
  }

  // ---- Turns of the active list ----

  /** Another FD's call changes nothing for the watched one but through its requests. */
  lemma ServedOther(w: Watch, s: State, dir: Dir, x: Handle, script: Script)
    requires s.Sound() && x in s.perfds && s.perfds[x].Wants(dir) && x != w.h && w.Kept(s)
    ensures w.Kept(s.Served(dir, x, script).0)
  {
    var t := s.Entered(dir, x);
    SinceGrows(w.from, s.hist, t.hist, w.dir, w.h);
    assert w.Kept(t) by {
      hide Gated, Links.Ok, State.Sound, CalledSince, RequestedSince;
    }
    hide State.Sound, InCall, State.Entered, State.AskedAll, State.Left, Watch.Kept;
    t.AskedInCall(script.requests, dir, x);
    AskedAllKept(w, t, script.requests);
    var (u, alive) := t.AskedAll(script.requests);
    if alive {
      LeftOther(w, u, dir, x, script.outcome);
    }
  }

  lemma LeftOther(w: Watch, s: State, dir: Dir, x: Handle, outcome: Outcome)
    requires s.Sound() && InCall(s.hist, s.perfds, dir, x) && x != w.h && w.Kept(s)
    ensures w.Kept(s.Left(dir, x, outcome))
  {
    LeftFrame(s, dir, x, outcome, w.h);
    hide State.Sound, State.Left, InCall;
    StillKept(w, s, s.Left(dir, x, outcome));
  }

  /** The return of one FD's handler leaves every other FD where it is. */
  lemma LeftFrame(s: State, dir: Dir, x: Handle, outcome: Outcome, h: Handle)
    requires s.Sound() && InCall(s.hist, s.perfds, dir, x) && x != h
    ensures var t := s.Left(dir, x, outcome); SameFor(s, t, h)
  {
    OutcomeMeans(s, dir, x, outcome);
    hide Gated, Links.Ok, State.Sound, InCall;
  }

  ghost predicate SameFor(s: State, t: State, h: Handle) {
    && t.Grown(s) && (h in t.perfds <==> h in s.perfds) && (h in s.perfds ==> t.perfds[h] == s.perfds[h])
    && (h in s.lists.active ==> h in t.lists.active)
    && (h in s.lists.closers ==> h in t.lists.closers) && (h in s.lists.ejects ==> h in t.lists.ejects)
  }

  lemma StillKept(w: Watch, s: State, t: State)
    requires w.Kept(s) && SameFor(s, t, w.h)
    ensures w.Kept(t)
  {
    SinceGrows(w.from, s.hist, t.hist, w.dir, w.h);
    hide CalledSince, RequestedSince;
  }

  /** The watched FD's own call: in the watched direction it is the call; in the other one it may excuse it. */
  lemma ServedOwn(w: Watch, s: State, dir: Dir, script: Script)
    requires s.Sound() && w.h in s.perfds && s.perfds[w.h].Wants(dir) && w.InHand(s)
    requires dir == w.dir || !w.strict || w.Answered(s)
    ensures w.InHand(s.Served(dir, w.h, script).0)
    ensures dir == w.dir ==> w.Answered(s.Served(dir, w.h, script).0)
  {
    var t := s.Entered(dir, w.h);
    SinceGrows(w.from, s.hist, t.hist, w.dir, w.h);
    if dir == w.dir {
      JustCalled(w.from, s.hist, dir, w.h);
    }
    assert w.InHand(t) && w.Started(t) && (dir == w.dir || w.Answered(s) ==> w.Answered(t)) by {
      hide Gated, Links.Ok, State.Sound, CalledSince, RequestedSince;
    }
    hide State.Sound, InCall, State.Entered, State.AskedAll, State.Left, Watch.InHand, Watch.Answered, Watch.Started;
    t.AskedInCall(script.requests, dir, w.h);
    var (u, alive) := t.AskedAll(script.requests);
    if dir == w.dir || w.Answered(s) {
      AskedAllAnswered(w, t, script.requests);
      if alive {
        LeftAnswered(w, u, dir, w.h, script.outcome);
      }
      assert w.InHand(s.Served(dir, w.h, script).0) by {
        AnsweredInHand(w, s.Served(dir, w.h, script).0);
      }
    } else {
      AskedAllInHand(w, t, script.requests);
      if alive {
        LeftOwn(w, u, dir, script.outcome);
      }
    }
  }

  lemma AnsweredInHand(w: Watch, s: State)
    requires w.Started(s) && w.Answered(s)
    ensures w.InHand(s) && w.Kept(s)
  {}

  lemma LeftAnswered(w: Watch, s: State, dir: Dir, x: Handle, outcome: Outcome)
    requires s.Sound() && InCall(s.hist, s.perfds, dir, x) && w.Started(s) && w.Answered(s)
    ensures w.Started(s.Left(dir, x, outcome)) && w.Answered(s.Left(dir, x, outcome))
  {
    SinceGrows(w.from, s.hist, s.Left(dir, x, outcome).hist, w.dir, w.h);
    hide Gated, Links.Ok, State.Sound, CalledSince, RequestedSince;
  }

  lemma LeftOwn(w: Watch, s: State, dir: Dir, outcome: Outcome)
    requires s.Sound() && InCall(s.hist, s.perfds, dir, w.h) && w.InHand(s) && dir != w.dir && !w.strict
    ensures w.InHand(s.Left(dir, w.h, outcome))
  {
    SinceGrows(w.from, s.hist, s.Left(dir, w.h, outcome).hist, w.dir, w.h);
    hide Gated, Links.Ok, State.Sound, CalledSince, RequestedSince;
  }

  lemma ServeOther(w: Watch, s: State, env: seq<Script>, dir: Dir, x: Handle)
    requires s.Sound() && x in s.perfds && x != w.h && w.Kept(s)
    ensures w.Kept(Serve(s, env, dir, x).state)
  {
    hide State.Sound, State.Served, Watch.Kept;
    if s.perfds[x].Wants(dir) && env != [] {
      ServedOther(w, s, dir, x, env[0]);
    }
  }

  lemma ServeOwn(w: Watch, s: State, env: seq<Script>, dir: Dir)
    requires s.Sound() && w.h in s.perfds && w.InHand(s) && (dir == w.dir || !w.strict || w.Answered(s))
    ensures var p := Serve(s, env, dir, w.h);
      w.InHand(p.state) && (p.status.Running? && (dir == w.dir || w.Answered(s)) ==> w.Answered(p.state))
  {
    if s.perfds[w.h].Wants(dir) && env != [] {
      hide State.Sound, State.Served, Watch.InHand, Watch.Answered;
      ServedOwn(w, s, dir, env[0]);
      if w.Answered(s) && dir != w.dir {
        ServedAnswered(w, s, dir, w.h, env[0]);
      }
    } else {
      hide State.Sound, State.Served;
    }
  }

  lemma ServedAnswered(w: Watch, s: State, dir: Dir, x: Handle, script: Script)
    requires s.Sound() && x in s.perfds && s.perfds[x].Wants(dir) && w.Started(s) && w.Answered(s)
    ensures w.Started(s.Served(dir, x, script).0) && w.Answered(s.Served(dir, x, script).0)
  {
    var t := s.Entered(dir, x);
    SinceGrows(w.from, s.hist, t.hist, w.dir, w.h);
    assert w.Started(t) && w.Answered(t) by {
      hide Gated, Links.Ok, State.Sound, CalledSince, RequestedSince;
    }
    hide State.Sound, InCall, State.Entered, State.AskedAll, State.Left, Watch.Started, Watch.Answered;
    t.AskedInCall(script.requests, dir, x);
    AskedAllAnswered(w, t, script.requests);
    var (u, alive) := t.AskedAll(script.requests);
    if alive {
      LeftAnswered(w, u, dir, x, script.outcome);
    }
  }

  lemma SettledKept(w: Watch, s: State, x: Handle)
    requires s.Sound() && x in s.perfds && w.Kept(s)
    ensures w.Kept(s.Settled(x))
    ensures w.Answered(s) ==> w.Answered(s.Settled(x))
  {
    hide Gated, Links.Ok, CalledSince, RequestedSince;
  }

  lemma ErasedKept(w: Watch, s: State, x: Handle)
    requires s.Sound() && w.Kept(s) && x in s.lists.active
    ensures var t := s.(lists := s.lists.Erase(x)); if x == w.h then w.InHand(t) && w.h in t.perfds else w.Kept(t)
  {
    hide Gated, CalledSince, RequestedSince;
  }

  /** One turn: the watched FD's own turn makes the call or excuses it; any other turn leaves it waiting. */
  lemma Activate1Kept(w: Watch, s: State, env: seq<Script>)
    requires s.Sound() && s.lists.active != [] && w.Kept(s) && (w.strict ==> w.dir.Read?)
    ensures var p := Activate1(s, env); p.status.Running? ==> w.Kept(p.state)
  {
    var x := s.lists.active[0];
    var t := s.(lists := s.lists.Erase(x));
    s.Unlinked(x);
    ErasedKept(w, s, x);
    hide State.Sound, Watch.Kept, Watch.InHand, Watch.Answered, Serve, State.Settled;
    if x == w.h {
      OwnTurn(w, t, env);
    } else {
      ServeOther(w, t, env, Read, x);
      var read := Serve(t, env, Read, x);
      if read.status.Running? {
        ServeOther(w, read.state, read.env, Write, x);
        var written := Serve(read.state, read.env, Write, x);
        if written.status.Running? {
          SettledKept(w, written.state, x);
        }
      }
    }
  }

  lemma OwnTurn(w: Watch, t: State, env: seq<Script>)
    requires t.Sound() && w.h in t.perfds && w.InHand(t) && (w.strict ==> w.dir.Read?)
    ensures var p := ServeBoth(t, env, w.h); p.status.Running? ==> w.Kept(p.state)
  {
    hide State.Sound, Watch.Kept, Watch.InHand, Watch.Answered, Serve, State.Settled;
    assert Read == w.dir || !w.strict || w.Answered(t);
    ServeOwn(w, t, env, Read);
    var read := Serve(t, env, Read, w.h);
    if read.status.Running? {
      ServeOwn(w, read.state, read.env, Write);
      var written := Serve(read.state, read.env, Write, w.h);
      if written.status.Running? {
        StartedFrom(w, written.state);
        AnsweredInHand(w, written.state);
        SettledKept(w, written.state, w.h);
      }
    }
  }

  lemma StartedFrom(w: Watch, s: State)
    requires w.InHand(s)
    ensures w.Started(s)
  {}

  lemma {:induction false} ActivesKept(w: Watch, s: State, env: seq<Script>)
    requires s.Sound() && w.Kept(s) && (w.strict ==> w.dir.Read?)
    ensures var p := Actives(s, env); p.status.Running? ==> w.Kept(p.state) && w.Started(p.state) && w.Answered(p.state)
    decreases |env|, |s.lists.active|
  {
    hide State.Sound, Activate1, Watch.Called, Watch.Excused;
    if s.lists.active != [] {
      Activate1Kept(w, s, env);
      var p := Activate1(s, env);
      if p.status.Running? {
        ActivesKept(w, p.state, p.env);
      }
    }
  }

  // ---- The rest of a pass, in which an answered watch stays answered ----

  lemma ChangedAnswered(w: Watch, s: State, t: State)
    requires w.Started(s) && w.Answered(s) && t.Later(s) && t.perfds.Keys == s.perfds.Keys
    requires w.h in s.lists.closers ==> w.h in t.lists.closers
    requires w.h in s.lists.ejects ==> w.h in t.lists.ejects
    ensures w.Started(t) && w.Answered(t)
  {
    SinceGrows(w.from, s.hist, t.hist, w.dir, w.h);
    hide CalledSince, RequestedSince;
  }

  lemma {:induction false} DrainedAnswered(w: Watch, s: State, env: seq<Script>, x: Handle)
    requires s.Sound() && x in s.perfds && w.Started(s) && w.Answered(s)
    ensures var p := Drained(s, env, x); w.Started(p.state) && w.Answered(p.state)
    decreases |env|
  {
    if s.perfds[x].fns > 0 && env != [] {
      var popped := s.perfds[x].(fns := s.perfds[x].fns - 1);
      s.Changed(x, popped);
      var t := s.(perfds := s.perfds[x := popped]);
      ChangedAnswered(w, s, t);
      hide State.Sound, State.AskedAll, Watch.Started, Watch.Answered;
      AskedAllAnswered(w, t, env[0].requests);
      var (u, alive) := t.AskedAll(env[0].requests);
      if alive {
        DrainedAnswered(w, u, env[1..], x);
      }
    }
  }

  lemma Run1Answered(w: Watch, s: State, env: seq<Script>)
    requires s.Sound() && s.lists.runners != [] && w.Started(s) && w.Answered(s)
    ensures var p := Run1(s, env); w.Started(p.state) && w.Answered(p.state)
  {
    var x := s.lists.runners[0];
    var t := s.(lists := s.lists.EraseShared(x));
    s.Unlinked(x);
    assert x !in s.lists.closers;
    ChangedAnswered(w, s, t);
    hide State.Sound, Drained, Watch.Started, Watch.Answered;
    DrainedAnswered(w, t, env, x);
  }

  lemma {:induction false} RunnersAnswered(w: Watch, s: State, env: seq<Script>)
    requires s.Sound() && w.Started(s) && w.Answered(s)
    ensures var p := Runners(s, env); w.Started(p.state) && w.Answered(p.state)
    decreases |env|, |s.lists.runners|
  {
    hide State.Sound, Run1, Watch.Started, Watch.Answered;
    if s.lists.runners != [] {
      Run1Answered(w, s, env);
      var p := Run1(s, env);
      if p.status.Running? {
        RunnersAnswered(w, p.state, p.env);
      }
    }
  }

  /** Busy does not end before a waiting FD was called, or its call excused. */
  lemma {:induction false} BusyCalls(w: Watch, s: State, env: seq<Script>)
    requires s.Sound() && w.Kept(s) && (w.strict ==> w.dir.Read?)
    ensures var p := Busy(s, env); p.status.Running? ==> w.Started(p.state) && w.Answered(p.state)
    decreases |env|, |s.lists.active| + |s.lists.runners|
  {
    hide State.Sound, Actives, Runners, Watch.Started, Watch.Called, Watch.Excused;
    if s.lists.active == [] && s.lists.runners == [] {
    } else {
      ActivesKept(w, s, env);
      var p := Actives(s, env);
      if p.status.Running? {
        RunnersAnswered(w, p.state, p.env);
        var q := Runners(p.state, p.env);
        if q.status.Running? {
          AnsweredInHand(w, q.state);
          BusyCalls(w, q.state, q.env);
        }
      }
    }
  }

  lemma FreedAnswered(w: Watch, s: State, x: Handle)
    requires s.Sound() && x in s.perfds && w.Started(s) && (w.Answered(s) || (x == w.h && !w.strict))
    ensures w.Started(s.Freed(x)) && w.Answered(s.Freed(x))
  {
    hide Gated, Links.Ok, State.Sound, CalledSince, RequestedSince;
  }

  lemma CalledStays(w: Watch, s: State, t: State)
    requires w.Started(s) && w.Called(s) && t.Later(s)
    ensures w.Started(t) && w.Answered(t)
  {
    SinceGrows(w.from, s.hist, t.hist, w.dir, w.h);
    hide CalledSince, RequestedSince;
  }

  lemma Eject1Answered(w: Watch, s: State, env: seq<Script>)
    requires s.Sound() && s.lists.ejects != [] && w.Started(s) && w.Answered(s)
    ensures var p := Eject1(s, env); p.status.Running? ==> w.Started(p.state) && w.Answered(p.state)
  {
    if w.Called(s) {
      CalledStays(w, s, Eject1(s, env).state);
    } else {
      Eject1Excused(w, s, env);
    }
  }

  lemma Eject1Excused(w: Watch, s: State, env: seq<Script>)
    requires s.Sound() && s.lists.ejects != [] && w.Started(s) && w.Excused(s)
    ensures var p := Eject1(s, env); p.status.Running? ==> w.Started(p.state) && w.Answered(p.state)
  {
    var x := s.lists.ejects[0];
    var t := s.(lists := s.lists.Erase(x));
    s.Unlinked(x);
    if env != [] {
      if x != w.h {
        ChangedAnswered(w, s, t);
      }
      hide State.Sound, State.AskedAll, State.Freed, CalledSince, RequestedSince;
      var (u, alive) := t.AskedAll(env[0].requests);
      if x != w.h {
        AskedAllAnswered(w, t, env[0].requests);
      }
      if alive {
        FreedAnswered(w, u, x);
      }
    }
  }

  lemma {:induction false} EjectersAnswered(w: Watch, s: State, env: seq<Script>)
    requires s.Sound() && w.Started(s) && w.Answered(s)
    ensures var p := Ejecters(s, env); p.status.Running? ==> w.Started(p.state) && w.Answered(p.state)
    decreases |env|
  {
    hide State.Sound, Eject1, Watch.Started, Watch.Answered;
    if s.lists.ejects != [] {
      Eject1Answered(w, s, env);
      var p := Eject1(s, env);
      if p.status.Running? {
        EjectersAnswered(w, p.state, p.env);
      }
    }
  }

  lemma DoomedAnswered(w: Watch, s: State, x: Handle)
    requires s.Sound() && x in s.perfds && w.Started(s) && w.Answered(s)
    ensures w.Started(s.Doomed(x)) && w.Answered(s.Doomed(x))
  {
    hide Gated, Links.Ok, State.Sound, CalledSince, RequestedSince;
  }

  lemma IdledAnswered(w: Watch, s: State, idle: Idle)
    requires s.Sound() && w.Started(s) && w.Answered(s)
    ensures var (t, status) := Idled(s, idle); w.Started(t) && w.Answered(t)
  {
    if s.lists.idlers != [] {
      var x := s.lists.idlers[0];
      var t := s.(lists := s.lists.Erase(x));
      s.Unlinked(x);
      assert x !in s.lists.ejects && x !in s.lists.closers;
      ChangedAnswered(w, s, t);
      match idle {
        case NotExpired => ChangedAnswered(w, s, t.(lists := t.lists.PushIdle(x)));
        case Accepted(rs) =>
          AskedAllAnswered(w, t, rs);
          var (u, alive) := t.AskedAll(rs);
          t.AskedLinks(rs, x);
          if alive && !u.lists.Linked(x) {
            ChangedAnswered(w, u, u.(lists := u.lists.PushIdle(x)));
          }
        case Refused(rs) =>
          AskedAllAnswered(w, t, rs);
          var (u, alive) := t.AskedAll(rs);
          if alive {
            DoomedAnswered(w, u, x);
          }
      }
      hide State.Sound, State.AskedAll, State.Doomed, Watch.Answered, Relinked;
    }
  }

  lemma {:induction false} ClosedAnswered(w: Watch, s: State)
    requires s.Sound() && w.Started(s) && w.Answered(s)
    ensures w.Started(Closed(s)) && w.Answered(Closed(s))
    decreases |s.lists.closers|
  {
    if s.lists.closers != [] {
      s.Unlinked(s.lists.closers[0]);
      hide State.Sound, State.Freed, Watch.Started, Watch.Answered;
      FreedAnswered(w, s, s.lists.closers[0]);
      ClosedAnswered(w, CloseFirst(s));
    }
  }

  /** From the end of the reports to the end of the pass. */
  lemma PassAnswers(w: Watch, s: State, turn: Turn, env: seq<Script>)
    requires s.Sound() && w.Kept(s) && (w.strict ==> w.dir.Read?)
    ensures var p := Busy(s, env); p.status.Running? ==>
      var q := Ejecters(p.state, p.env); q.status.Running? ==>
      var (t, status) := Rested(q.state, turn); w.Started(t) && w.Answered(t)
  {
    hide State.Sound, Busy, Ejecters, Idled, Closed, State.AskedAll, Watch.Started, Watch.Answered, Watch.Kept, Relinked;
    BusyCalls(w, s, env);
    var p := Busy(s, env);
    if p.status.Running? {
      EjectersAnswered(w, p.state, p.env);
      var q := Ejecters(p.state, p.env);
      if q.status.Running? {
        IdledAnswered(w, q.state, turn.idle);
        var (t, status) := Idled(q.state, turn.idle);
        if status.Running? {
          ClosedAnswered(w, t);
          AskedAllAnswered(w, Closed(t), turn.admitted);
        }
      }
    }
  }

  // ---- From a report to the call ----

  ghost predicate Carries(e: Ready, dir: Dir) {
    if dir.Read? then e.input else e.output
  }

  /** While reports are taken in, the FD waits, or was closed by a later error report. */
  ghost predicate Noted(w: Watch, s: State) {
    w.Started(s) && (w.Waiting(s) || (!w.strict && w.h in s.lists.closers))
  }

  lemma ReportedNoted(w: Watch, s: State, e: Ready)
    requires s.Sound() && Noted(w, s) && (w.strict ==> e.h != w.h || !e.error)
    ensures Noted(w, Reported(s, e).0)
  {
    hide Gated, Links.Ok;
  }

  lemma {:induction false} ReportedAllNoted(w: Watch, s: State, es: seq<Ready>)
    requires s.Sound() && Noted(w, s)
    requires w.strict ==> forall i :: 0 <= i < |es| ==> es[i].h != w.h || !es[i].error
    ensures Noted(w, ReportedAll(s, es).0)
    decreases |es|
  {
    hide State.Sound, Noted, Reported;
    if es != [] {
      ReportedNoted(w, s, es[0]);
      var (t, ok) := Reported(s, es[0]);
      if ok {
        ReportedAllNoted(w, t, es[1..]);
      }
    }
  }

  lemma {:induction false} ReportIsNoted(w: Watch, s: State, es: seq<Ready>, k: nat)
    requires s.Sound() && w.Started(s) && k < |es| && es[k].h == w.h && w.h in s.perfds
    requires !es[k].error && Carries(es[k], w.dir) && !s.perfds[w.h].Squelched(w.dir)
    requires w.strict ==> forall i :: 0 <= i < |es| ==> es[i].h != w.h || !es[i].error
    ensures ReportedAll(s, es).1 ==> Noted(w, ReportedAll(s, es).0)
    decreases |es|
  {
    var (t, ok) := Reported(s, es[0]);
    if ok {
      hide State.Sound, Reported, Noted, Watch.Started;
      if k == 0 {
        FirstNoted(w, s, es[0]);
        ReportedAllNoted(w, t, es[1..]);
      } else {
        SquelchKept(s, es[0], w.h);
        StartedLater(w, s, t);
        assert es[1..][k - 1] == es[k];
        ReportIsNoted(w, t, es[1..], k - 1);
      }
    }
  }

  lemma FirstNoted(w: Watch, s: State, e: Ready)
    requires s.Sound() && w.Started(s) && e.h == w.h && w.h in s.perfds
    requires !e.error && Carries(e, w.dir) && !s.perfds[w.h].Squelched(w.dir)
    ensures Noted(w, Reported(s, e).0)
  {
    ReportSetsWants(s, e);
    hide State.Sound, Reported;
  }

  lemma StartedLater(w: Watch, s: State, t: State)
    requires w.Started(s) && t.Grown(s)
    ensures w.Started(t)
  {}

  lemma SquelchKept(s: State, e: Ready, h: Handle)
    requires s.Sound() && h in s.perfds
    ensures var t := Reported(s, e).0;
      h in t.perfds && forall dir :: t.perfds[h].Squelched(dir) == s.perfds[h].Squelched(dir)
  {
    hide Gated, Links.Ok, State.Sound;
  }

  lemma LeadsToCall(w: Watch, s: State, turn: Turn, env: seq<Script>, k: nat)
    requires s.Sound() && w.from == |s.hist| && k < |turn.ready| && turn.ready[k].h == w.h && w.h in s.perfds
    requires !turn.ready[k].error && Carries(turn.ready[k], w.dir) && !s.perfds[w.h].Squelched(w.dir)
    requires w.strict ==> w.dir.Read? && forall i :: 0 <= i < |turn.ready| ==> turn.ready[i].h != w.h || !turn.ready[i].error
    ensures var p := Cycle(s, turn, env); p.status.Running? ==> w.Answered(p.state)
  {
    assert w.Started(s);
    hide State.Sound, ReportedAll, Busy, Ejecters, Rested, Watch.Answered;
    ReportIsNoted(w, s, turn.ready, k);
    var (t, ok) := ReportedAll(s, turn.ready);
    if ok {
      NotedKept(w, t);
      PassAnswers(w, t, turn, env);
    }
  }

  lemma NotedKept(w: Watch, s: State)
    requires Noted(w, s)
    ensures w.Kept(s)
  {}

  /**
   * A pass that runs to its end calls the handler for every direction that was reported for a live FD without error
   * and is not squelched, unless the FD was closed, ejected or freed first, or revived from that by a request.
   */
  lemma ReportLeadsToCall(s: State, turn: Turn, env: seq<Script>, k: nat, dir: Dir)
    requires s.Sound() && k < |turn.ready| && turn.ready[k].h in s.perfds
    requires !turn.ready[k].error && Carries(turn.ready[k], dir) && !s.perfds[turn.ready[k].h].Squelched(dir)
    ensures var h, p := turn.ready[k].h, Cycle(s, turn, env); p.status.Running? ==>
      || CalledSince(|s.hist|, p.state.hist, dir, h)
      || RequestedSince(|s.hist|, p.state.hist, h)
      || h !in p.state.perfds || h in p.state.lists.ejects
  {
    LeadsToCall(Watch(|s.hist|, dir, turn.ready[k].h, false), s, turn, env, k);
    hide State.Sound, CalledSince, RequestedSince, Cycle;
  }

  /** HandleRead is called without exception, if no error was reported for the FD. */
  lemma ReadReportLeadsToCall(s: State, turn: Turn, env: seq<Script>, k: nat)
    requires s.Sound() && k < |turn.ready| && turn.ready[k].h in s.perfds
    requires turn.ready[k].input && !s.perfds[turn.ready[k].h].squelchReads
    requires forall i :: 0 <= i < |turn.ready| && turn.ready[i].h == turn.ready[k].h ==> !turn.ready[i].error
    ensures var p := Cycle(s, turn, env); p.status.Running? ==>
      CalledSince(|s.hist|, p.state.hist, Read, turn.ready[k].h)
  {
    LeadsToCall(Watch(|s.hist|, Read, turn.ready[k].h, true), s, turn, env, k);
    hide State.Sound, CalledSince, Cycle;
  }

  /** A requested FD is called before both lists are empty, unless it was closed, ejected or freed first. */
  lemma RequestLeadsToCall(s: State, env: seq<Script>, dir: Dir, h: Handle)
    requires s.Sound() && h in s.perfds
    ensures var t := s.Activated(dir, h); var p := Busy(t, env); p.status.Running? ==>
      || CalledSince(|t.hist|, p.state.hist, dir, h)
      || RequestedSince(|t.hist|, p.state.hist, h)
      || h !in p.state.perfds || h in p.state.lists.closers || h in p.state.lists.ejects
  {
    Requests(Watch(|s.hist| + 1, dir, h, false), s, env);
    hide State.Sound, CalledSince, RequestedSince, Busy, State.Activated;
  }

  /** RequestRead leads to HandleRead without exception. */
  lemma ReadRequestLeadsToCall(s: State, env: seq<Script>, h: Handle)
    requires s.Sound() && h in s.perfds
    ensures var t := s.Activated(Read, h); var p := Busy(t, env); p.status.Running? ==>
      CalledSince(|t.hist|, p.state.hist, Read, h)
  {
    Requests(Watch(|s.hist| + 1, Read, h, true), s, env);
    hide State.Sound, CalledSince, Busy, State.Activated;
  }

  lemma Requests(w: Watch, s: State, env: seq<Script>)
    requires s.Sound() && w.h in s.perfds && w.from == |s.hist| + 1 && (w.strict ==> w.dir.Read?)
    ensures var t := s.Activated(w.dir, w.h); var p := Busy(t, env);
      |t.hist| == w.from && (p.status.Running? ==> w.Answered(p.state))
  {
    var t := s.Activated(w.dir, w.h);
    assert w.h < s.next;
    hide State.Sound, Watch.Answered, Busy;
    BusyCalls(w, t, env);
  }
}
