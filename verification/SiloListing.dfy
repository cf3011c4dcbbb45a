/**
 * io/silo.cc: which runs keep every live FD on a list. RunActives puts an FD that is a runner on neither the active nor
 * the idlers list; on runs in which no handler calls Run that is the only way to lose one, so none is lost.
 */
module SiloListing {
  import opened Silos

  /** There are no runners, and every live FD other than the one in hand is on a list. */
  ghost predicate Listed(s: State, inHand: set<Handle>) {
    && s.lists.runners == []
    && forall h <- s.perfds :: h in inHand || s.lists.Linked(h) || s.lists.SharedLinked(h)
  }

  ghost predicate Quiet(rs: seq<Request>) {
    forall i :: 0 <= i < |rs| ==> !rs[i].Run?
  }

  /** No callback of the script calls Run. */
  ghost predicate QuietScripts(env: seq<Script>) {
    forall i :: 0 <= i < |env| ==> Quiet(env[i].requests)
  }

  ghost predicate QuietTurn(turn: Turn) {
    Quiet(turn.admitted) && (turn.idle.NotExpired? || Quiet(turn.idle.requests))
  }

  lemma AskedListed(s: State, r: Request, inHand: set<Handle>)
    requires s.Sound() && Listed(s, inHand) && s.Alive(r) && !r.Run?
    ensures Listed(s.Asked(r), inHand)
  {
    hide Gated, Links.Ok;
  }

  lemma {:induction false} AskedAllListed(s: State, rs: seq<Request>, inHand: set<Handle>)
    requires s.Sound() && Listed(s, inHand) && Quiet(rs)
    ensures Listed(s.AskedAll(rs).0, inHand)
    decreases |rs|
  {
    hide State.Sound, State.Asked, Listed;
    if rs != [] && s.Alive(rs[0]) {
      AskedListed(s, rs[0], inHand);
      assert Quiet(rs[1..]);
      AskedAllListed(s.Asked(rs[0]), rs[1..], inHand);
    }
  }

  lemma LeftListed(s: State, dir: Dir, h: Handle, outcome: Outcome)
    requires s.Sound() && InCall(s.hist, s.perfds, dir, h) && Listed(s, {h})
    ensures Listed(s.Left(dir, h, outcome), {h})
  {
    hide Gated, Links.Ok, State.Sound;
  }

  lemma ServedListed(s: State, dir: Dir, h: Handle, script: Script)
    requires s.Sound() && h in s.perfds && s.perfds[h].Wants(dir) && Listed(s, {h}) && Quiet(script.requests)
    ensures Listed(s.Served(dir, h, script).0, {h})
  {
    var t := s.Entered(dir, h);
    assert Listed(t, {h}) by {
      hide Gated, Links.Ok, State.Sound;
    }
    hide State.Sound, Listed, InCall, State.Entered, State.AskedAll, State.Left, Quiet;
    t.AskedInCall(script.requests, dir, h);
    AskedAllListed(t, script.requests, {h});
    var (u, alive) := t.AskedAll(script.requests);
    if alive {
      LeftListed(u, dir, h, script.outcome);
    }
  }

  lemma ServeListed(s: State, env: seq<Script>, dir: Dir, h: Handle)
    requires s.Sound() && h in s.perfds && Listed(s, {h}) && QuietScripts(env)
    ensures var p := Serve(s, env, dir, h); Listed(p.state, {h}) && QuietScripts(p.env)
  {
    hide State.Sound, Listed, State.Served;
    if s.perfds[h].Wants(dir) && env != [] {
      ServedListed(s, dir, h, env[0]);
    }
  }

  lemma SettledListed(s: State, h: Handle)
    requires s.Sound() && h in s.perfds && Listed(s, {h})
    ensures Listed(s.Settled(h), {})
  {
    hide Gated, Links.Ok;
  }

  lemma Activate1Listed(s: State, env: seq<Script>)
    requires s.Sound() && s.lists.active != [] && Listed(s, {}) && QuietScripts(env)
    ensures var p := Activate1(s, env); p.status.Running? ==> Listed(p.state, {}) && QuietScripts(p.env)
  {
    var h := s.lists.active[0];
    var t := s.(lists := s.lists.Erase(h));
    s.Unlinked(h);
    assert Listed(t, {h});
    hide State.Sound, Listed, QuietScripts, Serve, State.Settled;
    ServeListed(t, env, Read, h);
    var read := Serve(t, env, Read, h);
    if read.status.Running? {
      ServeListed(read.state, read.env, Write, h);
      var written := Serve(read.state, read.env, Write, h);
      if written.status.Running? {
        SettledListed(written.state, h);
      }
    }
  }

  lemma {:induction false} ActivesListed(s: State, env: seq<Script>)
    requires s.Sound() && Listed(s, {}) && QuietScripts(env)
    ensures var p := Actives(s, env); p.status.Running? ==> Listed(p.state, {}) && QuietScripts(p.env)
    decreases |env|, |s.lists.active|
  {
    hide State.Sound, Listed, QuietScripts, Activate1;
    if s.lists.active != [] {
      Activate1Listed(s, env);
      var p := Activate1(s, env);
      if p.status.Running? {
        ActivesListed(p.state, p.env);
      }
    }
  }

  lemma {:induction false} BusyListed(s: State, env: seq<Script>)
    requires s.Sound() && Listed(s, {}) && QuietScripts(env)
    ensures var p := Busy(s, env); p.status.Running? ==> Listed(p.state, {}) && QuietScripts(p.env)
    decreases |env|, |s.lists.active| + |s.lists.runners|
  {
    hide State.Sound, QuietScripts, Actives;
    if s.lists.active != [] {
      ActivesListed(s, env);
      var p := Actives(s, env);
      if p.status.Running? {
        assert Runners(p.state, p.env) == p;
        assert Busy(p.state, p.env) == p;
      }
    }
  }

  lemma Eject1Listed(s: State, env: seq<Script>)
    requires s.Sound() && s.lists.ejects != [] && Listed(s, {}) && QuietScripts(env)
    ensures var p := Eject1(s, env); p.status.Running? ==> Listed(p.state, {}) && QuietScripts(p.env)
  {
    var h := s.lists.ejects[0];
    var t := s.(lists := s.lists.Erase(h));
    s.Unlinked(h);
    assert Listed(t, {h});
    hide State.Sound, State.AskedAll, State.Freed;
    if env != [] {
      AskedAllListed(t, env[0].requests, {h});
      var (u, alive) := t.AskedAll(env[0].requests);
      if alive {
        FreedListed(u, h);
      }
    }
  }

  lemma FreedListed(s: State, h: Handle)
    requires s.Sound() && h in s.perfds && Listed(s, {h})
    ensures Listed(s.Freed(h), {})
  {
    hide State.Sound, State.Freed;
  }

  lemma {:induction false} EjectersListed(s: State, env: seq<Script>)
    requires s.Sound() && Listed(s, {}) && QuietScripts(env)
    ensures var p := Ejecters(s, env); p.status.Running? ==> Listed(p.state, {}) && QuietScripts(p.env)
    decreases |env|
  {
    hide State.Sound, Listed, QuietScripts, Eject1;
    if s.lists.ejects != [] {
      Eject1Listed(s, env);
      var p := Eject1(s, env);
      if p.status.Running? {
        EjectersListed(p.state, p.env);
      }
    }
  }

  lemma DoomedListed(s: State, h: Handle)
    requires s.Sound() && h in s.perfds && Listed(s, {h})
    ensures Listed(s.Doomed(h), {})
  {
    hide Gated, Links.Ok;
  }

  lemma IdledListed(s: State, idle: Idle)
    requires s.Sound() && Listed(s, {}) && (idle.NotExpired? || Quiet(idle.requests))
    ensures var (t, status) := Idled(s, idle); status.Running? ==> Listed(t, {})
  {
    if s.lists.idlers != [] {
      var h := s.lists.idlers[0];
      var t := s.(lists := s.lists.Erase(h));
      s.Unlinked(h);
      assert Listed(t, {h});
      hide State.Sound, State.AskedAll, State.Doomed, Quiet;
      if !idle.NotExpired? {
        AskedAllListed(t, idle.requests, {h});
        var (u, alive) := t.AskedAll(idle.requests);
        if alive && idle.Refused? {
          DoomedListed(u, h);
        }
      }
    }
  }

  lemma {:induction false} ClosedListed(s: State)
    requires s.Sound() && Listed(s, {})
    ensures Listed(Closed(s), {})
    decreases |s.lists.closers|
  {
    if s.lists.closers != [] {
      var h := s.lists.closers[0];
      s.Unlinked(h);
      assert Listed(s, {h});
      hide State.Sound, State.Freed, Listed;
      FreedListed(s, h);
      ClosedListed(CloseFirst(s));
    }
  }

  lemma ReportedListed(s: State, e: Ready)
    requires s.Sound() && Listed(s, {})
    ensures Listed(Reported(s, e).0, {})
  {
    if e.h in s.perfds && e.error {
      assert Listed(s, {e.h});
      DoomedListed(s, e.h);
    }
    hide Gated, Links.Ok, State.Doomed;
  }

  lemma {:induction false} ReportedAllListed(s: State, es: seq<Ready>)
    requires s.Sound() && Listed(s, {})
    ensures Listed(ReportedAll(s, es).0, {})
    decreases |es|
  {
    hide State.Sound, Listed, Reported;
    if es != [] {
      ReportedListed(s, es[0]);
      var (t, ok) := Reported(s, es[0]);
      if ok {
        ReportedAllListed(t, es[1..]);
      }
    }
  }

  lemma WorkedListed(s: State, ready: seq<Ready>, env: seq<Script>)
    requires s.Sound() && Listed(s, {}) && QuietScripts(env)
    ensures var p := Worked(s, ready, env); p.status.Running? ==> Listed(p.state, {}) && QuietScripts(p.env)
  {
    hide State.Sound, Listed, QuietScripts, ReportedAll, Busy, Ejecters;
    ReportedAllListed(s, ready);
    var (t, ok) := ReportedAll(s, ready);
    if ok {
      BusyListed(t, env);
      var p := Busy(t, env);
      if p.status.Running? {
        EjectersListed(p.state, p.env);
      }
    }
  }

  lemma CycleListed(s: State, turn: Turn, env: seq<Script>)
    requires s.Sound() && Listed(s, {}) && QuietScripts(env) && QuietTurn(turn)
    ensures var p := Cycle(s, turn, env); p.status.Running? ==> Listed(p.state, {}) && QuietScripts(p.env)
  {
    hide State.Sound, Listed, QuietScripts, Quiet, Worked, Idled, Closed, State.AskedAll;
    WorkedListed(s, turn.ready, env);
    var p := Worked(s, turn.ready, env);
    if p.status.Running? {
      IdledListed(p.state, turn.idle);
      var (t, status) := Idled(p.state, turn.idle);
      if status.Running? {
        ClosedListed(t);
        AskedAllListed(Closed(t), turn.admitted, {});
      }
    }
  }

  /** On every run in which nobody calls Run, every live FD is active, idle, being ejected or closing after each pass. */
  lemma {:induction false} EveryFdListed(s: State, turns: seq<Turn>, env: seq<Script>)
    requires s.Sound() && Listed(s, {}) && QuietScripts(env)
    requires forall i :: 0 <= i < |turns| ==> QuietTurn(turns[i])
    ensures var p := Execution(s, turns, env);
      p.status.Running? ==> forall h <- p.state.perfds :: p.state.lists.Linked(h) || h in p.state.lists.closers
    decreases |turns|
  {
    hide State.Sound, QuietScripts, QuietTurn, Cycle;
    if turns != [] {
      CycleListed(s, turns[0], env);
      var p := Cycle(s, turns[0], env);
      if p.status.Running? {
        EveryFdListed(p.state, turns[1..], p.env);
      }
    }
  }
}
