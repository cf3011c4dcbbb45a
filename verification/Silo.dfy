/**
 * io/silo.cc: the event loop's activation state machine. Handlers are an arbitrary environment: every callback does
 * whatever the next entry of an arbitrary script says. The five lists are sequences, as the intrusive rings are.
 * A State function says what each operation does; the class at the end does it in place, as the source does.
 */
module Silos {
  import opened Basics

  type Handle = nat

  const MAX_FDS := 100 * 1024

  datatype Dir = Read | Write

  /** What a handler may ask of the silo through Context, from inside a callback. */
  datatype Request = Activate(dir: Dir, h: Handle) | Run(h: Handle) | Eject(h: Handle) | Add

  datatype Outcome = FdEagain | Yield | Suspend | Close

  /** One callback: the requests it makes, then what it returns (an error return counts as Close). */
  datatype Script = Script(requests: seq<Request>, outcome: Outcome)

  /** One epoll report, with the three error flags taken together. */
  datatype Ready = Ready(h: Handle, error: bool, input: bool, output: bool)

  /** The idle scan: the oldest idler may not have expired, or its HandleIdle accepts or refuses the expiration. */
  datatype Idle = NotExpired | Accepted(requests: seq<Request>) | Refused(requests: seq<Request>)

  /** What the outside does to one pass of the loop; admission adds FDs and runs functions that make requests. */
  datatype Turn = Turn(ready: seq<Ready>, idle: Idle, admitted: seq<Request>)

  /** Stopped: the script ran out, or a dead handle killed the process. Collided: a linked hook was pushed. */
  datatype Status = Running | Stopped | Collided

  datatype PerFd = PerFd(wantsRead: bool, wantsWrite: bool, squelchReads: bool, squelchWrites: bool, fns: nat) {
    predicate Wants(dir: Dir) { if dir.Read? then wantsRead else wantsWrite }
    predicate Squelched(dir: Dir) { if dir.Read? then squelchReads else squelchWrites }

    function SetWants(dir: Dir, b: bool): PerFd {
      if dir.Read? then this.(wantsRead := b) else this.(wantsWrite := b)
    }

    function SetSquelched(dir: Dir, b: bool): PerFd {
      if dir.Read? then this.(squelchReads := b) else this.(squelchWrites := b)
    }

    function Unwanted(): PerFd {
      this.(wantsRead := false, wantsWrite := false)
    }

    /** An epoll report sets the wants flags that are not squelched. */
    function Notified(e: Ready): PerFd {
      this.(wantsRead := wantsRead || (e.input && !squelchReads),
            wantsWrite := wantsWrite || (e.output && !squelchWrites))
    }
  }

  const FRESH := PerFd(false, false, false, false, 0)

  // ---- The lists ----

  ghost predicate Apart(s: seq<Handle>, t: seq<Handle>) {
    forall x <- s :: x !in t
  }

  /** s after a blind erase of h. */
  function Without(s: seq<Handle>, h: Handle): (r: seq<Handle>)
    ensures forall x :: x in r <==> x in s && x != h
    ensures if h in s then |r| < |s| else r == s
    ensures NoDup(s) ==> NoDup(r)
  {
    if s == [] then [] else if s[0] == h then Without(s[1..], h)
    else
      assert NoDup(s) ==> s[0] !in s[1..];
      [s[0]] + Without(s[1..], h)
  }

  /** The three lists of the ActiveIdle hook and the two of the Shared hook. */
  datatype Links = Links(
    active: seq<Handle>, idlers: seq<Handle>, ejects: seq<Handle>, runners: seq<Handle>, closers: seq<Handle>)
  {
    /** IsLinked on the ActiveIdle hook: it does not tell which of the three lists the hook is in. */
    predicate Linked(h: Handle) {
      h in active || h in idlers || h in ejects
    }

    /** IsLinked on the Shared hook. */
    predicate SharedLinked(h: Handle) {
      h in runners || h in closers
    }

    /** No hook is in two lists or twice in one, and a closing FD is neither idle nor being ejected. */
    ghost predicate Ok() {
      && NoDup(active) && NoDup(idlers) && NoDup(ejects) && NoDup(runners) && NoDup(closers)
      && Apart(active, idlers) && Apart(active, ejects) && Apart(idlers, ejects)
      && Apart(runners, closers)
      && Apart(closers, idlers) && Apart(closers, ejects)
    }

    function Erase(h: Handle): (r: Links)
      ensures Ok() ==> r.Ok()
      ensures forall x :: (r.Linked(x) <==> Linked(x) && x != h) && (r.SharedLinked(x) <==> SharedLinked(x))
      ensures r.closers == closers
    {
      Links(Without(active, h), Without(idlers, h), Without(ejects, h), runners, closers)
    }

    function EraseShared(h: Handle): (r: Links)
      ensures Ok() ==> r.Ok()
      ensures forall x :: (r.SharedLinked(x) <==> SharedLinked(x) && x != h) && (r.Linked(x) <==> Linked(x))
      ensures h !in r.closers
    {
      Links(active, idlers, ejects, Without(runners, h), Without(closers, h))
    }

    function PushActive(h: Handle): (r: Links)
      requires !Linked(h)
      ensures Ok() ==> r.Ok()
      ensures forall x :: (r.Linked(x) <==> Linked(x) || x == h) && (r.SharedLinked(x) <==> SharedLinked(x))
    {
      this.(active := active + [h])
    }

    function PushIdle(h: Handle): (r: Links)
      requires !Linked(h) && h !in closers
      ensures Ok() ==> r.Ok()
      ensures forall x :: (r.Linked(x) <==> Linked(x) || x == h) && (r.SharedLinked(x) <==> SharedLinked(x))
    {
      this.(idlers := idlers + [h])
    }

    function PushEject(h: Handle): (r: Links)
      requires !Linked(h) && h !in closers
      ensures Ok() ==> r.Ok()
      ensures forall x :: (r.Linked(x) <==> Linked(x) || x == h) && (r.SharedLinked(x) <==> SharedLinked(x))
    {
      this.(ejects := ejects + [h])
    }

    function PushRunner(h: Handle): (r: Links)
      requires !SharedLinked(h)
      ensures Ok() ==> r.Ok()
      ensures forall x :: (r.SharedLinked(x) <==> SharedLinked(x) || x == h) && (r.Linked(x) <==> Linked(x))
    {
      this.(runners := runners + [h])
    }

    function PushCloser(h: Handle): (r: Links)
      requires !SharedLinked(h) && !Linked(h)
      ensures Ok() ==> r.Ok()
      ensures forall x :: (r.SharedLinked(x) <==> SharedLinked(x) || x == h) && (r.Linked(x) <==> Linked(x))
    {
      this.(closers := closers + [h])
    }
  }

  // ---- History ----

  datatype Event = Called(dir: Dir, h: Handle) | Returned(dir: Dir, h: Handle, outcome: Outcome) | Requested(dir: Dir, h: Handle)

  /** Whether h was requested since its last call began, and whether it returned kSuspend and has not been since. */
  datatype Gate = Gate(requested: bool, suspended: bool)

  function NextGate(g: Gate, e: Event): Gate {
    match e
    case Called(_, _) => Gate(false, false)
    case Requested(_, _) => Gate(true, false)
    case Returned(_, _, outcome) => Gate(g.requested, g.suspended || (outcome.Suspend? && !g.requested))
  }

  function GateOf(hist: seq<Event>, dir: Dir, h: Handle): Gate {
    if hist == [] then Gate(false, false)
    else
      var g, e := GateOf(hist[..|hist| - 1], dir, h), hist[|hist| - 1];
      if e.dir == dir && e.h == h then NextGate(g, e) else g
  }

  /** No call was ever made through a closed gate. */
  ghost predicate Honoured(hist: seq<Event>) {
    forall j :: 0 <= j < |hist| && hist[j].Called? ==> !GateOf(hist[..j], hist[j].dir, hist[j].h).suspended
  }

  /** A handle whose gate is closed is squelched and not wanted. */
  ghost predicate Gated(hist: seq<Event>, perfds: map<Handle, PerFd>) {
    && Honoured(hist)
    && forall h, dir :: h in perfds && GateOf(hist, dir, h).suspended ==>
         perfds[h].Squelched(dir) && !perfds[h].Wants(dir)
  }

  /** Changes to an FD that keep it squelched and unwanted where it was keep every gate's promise. */
  lemma GatedUpdate(hist: seq<Event>, perfds: map<Handle, PerFd>, h: Handle, p: PerFd)
    requires Gated(hist, perfds) && h in perfds
    requires forall dir :: perfds[h].Squelched(dir) && !perfds[h].Wants(dir) ==> p.Squelched(dir) && !p.Wants(dir)
    ensures Gated(hist, perfds[h := p])
  {
    hide Honoured, GateOf;
  }

  /** A request opens the gate, so it may set any flag of its direction. */
  lemma GatedRequest(hist: seq<Event>, perfds: map<Handle, PerFd>, dir: Dir, h: Handle)
    requires Gated(hist, perfds) && h in perfds
    ensures Gated(hist + [Requested(dir, h)], perfds[h := perfds[h].SetWants(dir, true).SetSquelched(dir, false)])
  {
    HistGrows(hist, Requested(dir, h));
    hide Honoured, GateOf;
  }

  lemma HistGrows(hist: seq<Event>, e: Event)
    ensures forall dir, h :: GateOf(hist + [e], dir, h)
              == if e.dir == dir && e.h == h then NextGate(GateOf(hist, dir, h), e) else GateOf(hist, dir, h)
    ensures Honoured(hist) && (e.Called? ==> !GateOf(hist, e.dir, e.h).suspended) ==> Honoured(hist + [e])
  {
    var next := hist + [e];
    assert next[..|hist|] == hist;
    if Honoured(hist) && (e.Called? ==> !GateOf(hist, e.dir, e.h).suspended) {
      forall j | 0 <= j < |next| && next[j].Called? ensures !GateOf(next[..j], next[j].dir, next[j].h).suspended {
        if j < |hist| {
          assert next[..j] == hist[..j];
        }
      }
    }
  }

  /** A handle that occurs in no event has an open gate. */
  lemma {:induction false} UnknownGate(hist: seq<Event>, dir: Dir, h: Handle)
    requires forall e <- hist :: e.h != h
    ensures GateOf(hist, dir, h) == Gate(false, false)
    decreases |hist|
  {
    if hist != [] {
      UnknownGate(hist[..|hist| - 1], dir, h);
    }
  }

  /** A call needs a wanted direction, whose gate is therefore open; it clears the want. */
  lemma GatedCall(hist: seq<Event>, perfds: map<Handle, PerFd>, dir: Dir, h: Handle)
    requires Gated(hist, perfds) && h in perfds && perfds[h].Wants(dir)
    ensures Gated(hist + [Called(dir, h)], perfds[h := perfds[h].SetWants(dir, false)])
    ensures InCall(hist + [Called(dir, h)], perfds[h := perfds[h].SetWants(dir, false)], dir, h)
  {
    HistGrows(hist, Called(dir, h));
    hide Honoured, GateOf;
  }

  /** While a callback runs: only a request made since it began can have set its direction's want. */
  ghost predicate InCall(hist: seq<Event>, perfds: map<Handle, PerFd>, dir: Dir, h: Handle) {
    && !GateOf(hist, dir, h).suspended
    && h in perfds
    && (perfds[h].Wants(dir) ==> GateOf(hist, dir, h).requested)
  }

  /** What a return does to the flags, other than a close. */
  function Flags(p: PerFd, dir: Dir, outcome: Outcome): PerFd {
    match outcome
    case Yield => p.SetWants(dir, true)
    case Suspend => p.SetSquelched(dir, true)
    case _ => p
  }

  lemma GatedReturn(hist: seq<Event>, perfds: map<Handle, PerFd>, dir: Dir, h: Handle, outcome: Outcome)
    requires Gated(hist, perfds) && InCall(hist, perfds, dir, h)
    ensures Gated(hist + [Returned(dir, h, outcome)], perfds[h := Flags(perfds[h], dir, outcome)])
  {
    HistGrows(hist, Returned(dir, h, outcome));
    hide Honoured, GateOf;
  }

  lemma GatedSubset(hist: seq<Event>, perfds: map<Handle, PerFd>, some: map<Handle, PerFd>)
    requires Gated(hist, perfds)
    requires forall h <- some :: h in perfds && some[h] == perfds[h]
    ensures Gated(hist, some)
  {
    hide Honoured, GateOf;
  }

  lemma GatedFresh(hist: seq<Event>, perfds: map<Handle, PerFd>, h: Handle)
    requires Gated(hist, perfds)
    requires forall dir :: !GateOf(hist, dir, h).suspended
    ensures Gated(hist, perfds[h := FRESH])
  {
    hide Honoured, GateOf;
  }

  /** Whether a request links the ActiveIdle hook of h. */
  predicate Relinks(r: Request, h: Handle) {
    match r
    case Activate(_, x) => x == h
    case Eject(x) => x == h
    case _ => false
  }

  predicate Relinked(rs: seq<Request>, h: Handle) {
    exists i :: 0 <= i < |rs| && Relinks(rs[i], h)
  }

  lemma RelinkedStep(rs: seq<Request>, h: Handle)
    requires rs != []
    ensures Relinked(rs, h) <==> Relinks(rs[0], h) || Relinked(rs[1..], h)
  {
    hide Relinks;
    if Relinked(rs, h) {
      var i :| 0 <= i < |rs| && Relinks(rs[i], h);
      assert i > 0 ==> rs[1..][i - 1] == rs[i];
    }
    if Relinked(rs[1..], h) {
      var i :| 0 <= i < |rs[1..]| && Relinks(rs[1..][i], h);
      assert rs[i + 1] == rs[1..][i];
    }
  }

  // ---- The state and what each operation does to it ----

  datatype State = State(lists: Links, perfds: map<Handle, PerFd>, next: Handle, hist: seq<Event>, freed: seq<Handle>)
  {
    /**
     * No hook is doubly linked, only live FDs are linked, every gate is kept, and every handle ever issued is either
     * live or was freed, exactly once.
     */
    ghost predicate Sound() {
      && lists.Ok()
      && (forall h :: lists.Linked(h) || lists.SharedLinked(h) ==> h in perfds)
      && Gated(hist, perfds)
      && (forall e <- hist :: e.h < next)
      && NoDup(freed)
      && (forall h: Handle :: h in perfds || h in freed <==> h < next)
      && (forall h <- freed :: h !in perfds)
    }

    /** Nothing that happened is forgotten. */
    ghost predicate Later(s: State) {
      s.hist <= hist && s.freed <= freed && s.next <= next
    }

    lemma LaterAgain(s: State, t: State)
      requires s.Later(t) && Later(s)
      ensures Later(t)
    {}

    /** Nothing happened but changes to flags and links of live FDs. */
    ghost predicate Grown(s: State) {
      Later(s) && s.freed == freed && s.perfds.Keys <= perfds.Keys
    }

    lemma GrownAgain(s: State, t: State)
      requires s.Grown(t) && Grown(s)
      ensures Grown(t)
    {}

    /** Nothing happened but the freeing of some FDs. */
    ghost predicate Shrunk(s: State) {
      && hist == s.hist && next == s.next
      && forall h <- perfds :: h in s.perfds && perfds[h] == s.perfds[h]
    }

    lemma ShrunkAgain(s: State, t: State)
      requires s.Shrunk(t) && Shrunk(s)
      ensures Shrunk(t)
    {}

    lemma Moved(l: Links)
      requires Sound() && l.Ok()
      requires forall h :: l.Linked(h) || l.SharedLinked(h) ==> h in perfds
      ensures this.(lists := l).Sound()
    {}

    /** A linked hook belongs to a live FD and may be unlinked. */
    lemma Unlinked(h: Handle)
      requires Sound()
      ensures this.(lists := lists.Erase(h)).Sound() && this.(lists := lists.EraseShared(h)).Sound()
      ensures lists.Linked(h) || lists.SharedLinked(h) ==> h in perfds
    {
      hide Gated, Links.Ok;
      Moved(lists.Erase(h));
      Moved(lists.EraseShared(h));
    }

    lemma Changed(h: Handle, p: PerFd)
      requires Sound() && h in perfds
      requires forall dir :: perfds[h].Squelched(dir) && !perfds[h].Wants(dir) ==> p.Squelched(dir) && !p.Wants(dir)
      ensures this.(perfds := perfds[h := p]).Sound()
    {
      hide Gated, Links.Ok;
      GatedUpdate(hist, perfds, h, p);
    }

    lemma Logged(e: Event, p: PerFd)
      requires Sound() && e.h in perfds && Gated(hist + [e], perfds[e.h := p])
      ensures var s := this.(hist := hist + [e], perfds := perfds[e.h := p]); s.Sound() && s.Grown(this)
    {
      hide Gated, Links.Ok;
    }

    /** Both wants flags cleared, both hooks unlinked. */
    function Expunged(h: Handle): (r: State)
      requires Sound() && h in perfds
      ensures r.Sound() && r.Grown(this)
      ensures !r.lists.Linked(h) && !r.lists.SharedLinked(h)
    {
      hide Gated, Links.Ok;
      Changed(h, perfds[h].Unwanted());
      var l := lists.Erase(h).EraseShared(h);
      this.(perfds := perfds[h := perfds[h].Unwanted()]).Moved(l);
      this.(perfds := perfds[h := perfds[h].Unwanted()], lists := l)
    }

    /** Expunged and put on the closers list. */
    function Doomed(h: Handle): (r: State)
      requires Sound() && h in perfds
      ensures r.Sound() && r.Grown(this)
      ensures h in r.lists.closers && !r.lists.Linked(h)
    {
      hide Gated, Links.Ok;
      var s := Expunged(h);
      s.Moved(s.lists.PushCloser(h));
      s.(lists := s.lists.PushCloser(h))
    }

    lemma Gone(h: Handle)
      requires Sound() && h in perfds && !lists.Linked(h) && !lists.SharedLinked(h)
      ensures this.(perfds := perfds - {h}, freed := freed + [h]).Sound()
    {
      GatedSubset(hist, perfds, perfds - {h});
      hide Gated, Links.Ok;
      var s := this.(perfds := perfds - {h}, freed := freed + [h]);
      forall x: Handle ensures x in s.perfds || x in s.freed <==> x < next {
        assert x in s.freed <==> x in freed || x == h;
      }
    }

    /** The destructor of a freed PerFd unlinks both of its hooks. */
    function Freed(h: Handle): (r: State)
      requires Sound() && h in perfds
      ensures r.Sound()
      ensures r.freed == freed + [h] && r.perfds == perfds - {h} && r.hist == hist && r.next == next
      ensures r.lists == lists.Erase(h).EraseShared(h)
    {
      hide Gated, Links.Ok;
      var l := lists.Erase(h).EraseShared(h);
      Moved(l);
      hide *;
      this.(lists := l).Gone(h);
      this.(lists := l, perfds := perfds - {h}, freed := freed + [h])
    }

    predicate Alive(r: Request) {
      r.Add? || r.h in perfds
    }

    /** RequestRead and RequestWrite: want the direction, lift its squelch, and move the FD to the active list. */
    function Activated(dir: Dir, h: Handle): (s: State)
      requires Sound() && h in perfds
      ensures s.Sound() && s.Grown(this) && s.lists.closers == lists.closers
      ensures h in s.lists.active && s.perfds[h].Wants(dir) && !s.perfds[h].Squelched(dir)
      ensures !GateOf(s.hist, dir, h).suspended
    {
      hide Gated, Links.Ok;
      GatedRequest(hist, perfds, dir, h);
      HistGrows(hist, Requested(dir, h));
      hide GateOf, Honoured;
      var l := lists.Erase(h).PushActive(h);
      var s := this.(perfds := perfds[h := perfds[h].SetWants(dir, true).SetSquelched(dir, false)],
                     hist := hist + [Requested(dir, h)]);
      s.Moved(l);
      s.(lists := l)
    }

    /** A new FD takes a handle never issued before and starts idle; a full handle table refuses it. */
    function Added(): (s: State)
      requires Sound()
      ensures s.Sound() && s.Grown(this) && s.lists.closers == lists.closers
    {
      hide Links.Ok;
      if |perfds| >= MAX_FDS then this
      else
        UnknownGate(hist, Read, next);
        UnknownGate(hist, Write, next);
        GatedFresh(hist, perfds, next);
        hide Gated;
        var s := this.(perfds := perfds[next := FRESH], next := next + 1);
        s.Moved(lists.PushIdle(next));
        s.(lists := lists.PushIdle(next))
    }

    /** Run and Eject do nothing to the links of an FD whose hook is linked, whatever list it is linked in. */
    function Asked(r: Request): (s: State)
      requires Sound() && Alive(r)
      ensures s.Sound() && s.Grown(this)
      ensures (forall h <- s.lists.closers :: h in lists.closers) && |s.lists.closers| <= |lists.closers|
    {
      hide Gated, Links.Ok;
      match r
      case Activate(dir, h) => Activated(dir, h)
      case Run(h) =>
        var p := perfds[h].(fns := perfds[h].fns + 1);
        Changed(h, p);
        var s := this.(perfds := perfds[h := p]);
        if lists.SharedLinked(h) then s
        else
          s.Moved(lists.PushRunner(h));
          s.(lists := lists.PushRunner(h))
      case Eject(h) =>
        if lists.Linked(h) then this
        else
          var s := Expunged(h);
          s.Moved(s.lists.PushEject(h));
          s.(lists := s.lists.PushEject(h))
      case Add => Added()
    }

    /** Requests in order; one that names a dead handle kills the process. */
    function AskedAll(rs: seq<Request>): (r: (State, bool))
      requires Sound()
      ensures r.0.Sound() && r.0.Grown(this)
      ensures (forall h <- r.0.lists.closers :: h in lists.closers) && |r.0.lists.closers| <= |lists.closers|
      decreases |rs|
    {
      hide Gated, Links.Ok;
      if rs == [] then (this, true)
      else if !Alive(rs[0]) then (this, false)
      else Asked(rs[0]).AskedAll(rs[1..])
    }

    /** Requests alone set a want only together with opening its gate. */
    lemma {:induction false} AskedInCall(rs: seq<Request>, dir: Dir, h: Handle)
      requires Sound() && InCall(hist, perfds, dir, h)
      ensures var s := AskedAll(rs).0; InCall(s.hist, s.perfds, dir, h)
      decreases |rs|
    {
      if rs != [] && Alive(rs[0]) {
        AskedOneInCall(rs[0], dir, h);
        Asked(rs[0]).AskedInCall(rs[1..], dir, h);
      }
    }

    /** Requests link an FD's ActiveIdle hook exactly when one of them is an activation or ejection of it. */
    lemma {:induction false} AskedLinks(rs: seq<Request>, h: Handle)
      requires Sound() && h in perfds
      ensures AskedAll(rs).1 ==> (AskedAll(rs).0.lists.Linked(h) <==> lists.Linked(h) || Relinked(rs, h))
      decreases |rs|
    {
      if rs != [] && Alive(rs[0]) {
        AskedOneLinks(rs[0], h);
        RelinkedStep(rs, h);
        hide *;
        var s := Asked(rs[0]);
        assert s.Grown(this);
        InGrown(s, h);
        s.AskedLinks(rs[1..], h);
        AskedStep(rs);
      }
    }

    lemma AskedStep(rs: seq<Request>)
      requires Sound() && rs != [] && Alive(rs[0])
      ensures AskedAll(rs) == Asked(rs[0]).AskedAll(rs[1..])
    {
      hide Sound, Asked;
    }

    lemma InGrown(s: State, h: Handle)
      requires s.Grown(this) && h in perfds
      ensures h in s.perfds
    {}

    lemma AskedOneLinks(r: Request, h: Handle)
      requires Sound() && h in perfds && Alive(r)
      ensures Asked(r).lists.Linked(h) <==> lists.Linked(h) || Relinks(r, h)
    {
      hide Gated, Links.Ok;
    }

    lemma AskedOneInCall(r: Request, dir: Dir, h: Handle)
      requires Sound() && InCall(hist, perfds, dir, h) && Alive(r)
      ensures var s := Asked(r); InCall(s.hist, s.perfds, dir, h)
    {
      if r.Activate? {
        ActivatedInCall(r.dir, r.h, dir, h);
      } else {
        hide GateOf, Gated, Links.Ok, Sound;
      }
    }

    lemma ActivatedInCall(d: Dir, x: Handle, dir: Dir, h: Handle)
      requires Sound() && InCall(hist, perfds, dir, h) && x in perfds
      ensures var s := Activated(d, x); InCall(s.hist, s.perfds, dir, h)
    {
      HistGrows(hist, Requested(d, x));
      hide GateOf, Gated, Honoured, Links.Ok, Sound, Without, Links.Erase, Links.PushActive;
    }

    /** The direction's want is cleared before the handler is called. */
    function Entered(dir: Dir, h: Handle): (s: State)
      requires Sound() && h in perfds && perfds[h].Wants(dir)
      ensures s.Sound() && s.Grown(this) && s.lists == lists
      ensures InCall(s.hist, s.perfds, dir, h)
    {
      var p := perfds[h].SetWants(dir, false);
      GatedCall(hist, perfds, dir, h);
      Logged(Called(dir, h), p);
      hide *;
      this.(hist := hist + [Called(dir, h)], perfds := perfds[h := p])
    }

    /** What the silo does with the outcome of a call. */
    function Left(dir: Dir, h: Handle, outcome: Outcome): (s: State)
      requires Sound() && InCall(hist, perfds, dir, h)
      ensures s.Sound() && s.Grown(this)
      ensures if outcome.Close? then h in s.lists.closers else s.lists == lists
    {
      GatedReturn(hist, perfds, dir, h, outcome);
      Logged(Returned(dir, h, outcome), Flags(perfds[h], dir, outcome));
      hide Sound, Flags, Doomed;
      var s := this.(hist := hist + [Returned(dir, h, outcome)], perfds := perfds[h := Flags(perfds[h], dir, outcome)]);
      if outcome.Close? then s.Doomed(h) else s
    }

    /** One HandleRead or HandleWrite, from the clearing of the want to the handling of the outcome. */
    function Served(dir: Dir, h: Handle, script: Script): (r: (State, bool))
      requires Sound() && h in perfds && perfds[h].Wants(dir)
      ensures r.0.Sound() && r.0.Grown(this)
    {
      hide *;
      var s := Entered(dir, h);
      s.AskedInCall(script.requests, dir, h);
      var (t, alive) := s.AskedAll(script.requests);
      t.GrownAgain(s, this);
      if alive then
        var u := t.Left(dir, h, script.outcome);
        u.GrownAgain(t, this);
        (u, true)
      else (t, false)
    }

    /** RequestRead and RequestWrite can sneak in, so the FD may already be in a list. */
    function Settled(h: Handle): (s: State)
      requires Sound() && h in perfds
      ensures s.Sound() && s.Grown(this)
      ensures s.lists.runners == lists.runners
      ensures !perfds[h].wantsRead && !perfds[h].wantsWrite ==> s.lists.active == lists.active
    {
      hide Gated, Links.Ok;
      if lists.SharedLinked(h) || lists.Linked(h) then this
      else if perfds[h].wantsRead || perfds[h].wantsWrite then
        Moved(lists.PushActive(h));
        this.(lists := lists.PushActive(h))
      else
        Moved(lists.PushIdle(h));
        this.(lists := lists.PushIdle(h))
    }
  }

  // ---- One pass of the loop ----

  /** How far a phase got, and the script entries it left. */
  datatype Progress = Progress(state: State, env: seq<Script>, status: Status)
  {
    /** Follows on from s: nothing is forgotten, and what was live is live or freed. */
    ghost predicate From(s: State, scripts: seq<Script>) {
      && state.Sound() && |env| <= |scripts| && (|env| == |scripts| ==> env == scripts)
      && state.Later(s)
    }
  }

  /** The call of one direction, if it is wanted. */
  function Serve(s: State, env: seq<Script>, dir: Dir, h: Handle): (p: Progress)
    requires s.Sound() && h in s.perfds
    ensures p.From(s, env) && p.state.Grown(s) && !p.status.Collided?
    ensures !s.perfds[h].Wants(dir) ==> p == Progress(s, env, Running)
    ensures p.status.Running? && p.env == env ==> !s.perfds[h].Wants(dir)
  {
    hide State.Sound, State.Served;
    if !s.perfds[h].Wants(dir) then Progress(s, env, Running)
    else if env == [] then Progress(s, env, Stopped)
    else
      var (t, alive) := s.Served(dir, h, env[0]);
      Progress(t, env[1..], if alive then Running else Stopped)
  }

  /** Reads, then writes, then puts the FD back in a list. */
  function ServeBoth(s: State, env: seq<Script>, h: Handle): (p: Progress)
    requires s.Sound() && h in s.perfds
    ensures p.From(s, env) && p.state.freed == s.freed && !p.status.Collided?
    ensures p.status.Running? && p.env == env ==>
      p.state.lists.active == s.lists.active && p.state.lists.runners == s.lists.runners
  {
    hide State.Sound, State.Settled, Serve;
    var read := Serve(s, env, Read, h);
    if !read.status.Running? then read
    else
      var written := Serve(read.state, read.env, Write, h);
      if !written.status.Running? then written else Progress(written.state.Settled(h), written.env, Running)
  }

  /** One turn of RunActives: the oldest active FD is unlinked, served and linked again. */
  function Activate1(s: State, env: seq<Script>): (p: Progress)
    requires s.Sound() && s.lists.active != []
    ensures p.From(s, env) && p.state.freed == s.freed && !p.status.Collided?
    ensures p.status.Running? && p.env == env ==>
      |p.state.lists.active| < |s.lists.active| && p.state.lists.runners == s.lists.runners
  {
    var h := s.lists.active[0];
    s.Unlinked(h);
    hide State.Sound, ServeBoth;
    ServeBoth(s.(lists := s.lists.Erase(h)), env, h)
  }

  function Actives(s: State, env: seq<Script>): (p: Progress)
    requires s.Sound()
    ensures p.From(s, env) && p.state.freed == s.freed && !p.status.Collided?
    ensures p.status.Running? ==> p.state.lists.active == []
    ensures p.status.Running? && p.env == env ==> p.state.lists.runners == s.lists.runners
    decreases |env|, |s.lists.active|
  {
    hide State.Sound, Activate1;
    if s.lists.active == [] then Progress(s, env, Running)
    else
      var p := Activate1(s, env);
      if p.status.Running? then Actives(p.state, p.env) else p
  }

  /** The functions queued on one FD, including those they queue on it. */
  function Drained(s: State, env: seq<Script>, h: Handle): (p: Progress)
    requires s.Sound() && h in s.perfds
    ensures p.From(s, env) && p.state.Grown(s) && !p.status.Collided?
    ensures p.status.Running? ==> p.state.perfds[h].fns == 0
    ensures p.status.Running? && p.env == env ==> p.state == s
    decreases |env|
  {
    hide State.Sound, State.AskedAll;
    if s.perfds[h].fns == 0 then Progress(s, env, Running)
    else if env == [] then Progress(s, env, Stopped)
    else
      var popped := s.perfds[h].(fns := s.perfds[h].fns - 1);
      s.Changed(h, popped);
      var (t, alive) := s.(perfds := s.perfds[h := popped]).AskedAll(env[0].requests);
      if alive then Drained(t, env[1..], h) else Progress(t, env[1..], Stopped)
  }

  /** One turn of RunRunners: the oldest runner is unlinked and its functions are run. */
  function Run1(s: State, env: seq<Script>): (p: Progress)
    requires s.Sound() && s.lists.runners != []
    ensures p.From(s, env) && p.state.freed == s.freed && !p.status.Collided?
    ensures p.status.Running? && p.env == env ==>
      |p.state.lists.runners| < |s.lists.runners| && p.state.lists.active == s.lists.active
  {
    var h := s.lists.runners[0];
    s.Unlinked(h);
    hide State.Sound, Drained;
    Drained(s.(lists := s.lists.EraseShared(h)), env, h)
  }

  function Runners(s: State, env: seq<Script>): (p: Progress)
    requires s.Sound()
    ensures p.From(s, env) && p.state.freed == s.freed && !p.status.Collided?
    ensures p.status.Running? ==> p.state.lists.runners == []
    ensures p.status.Running? && p.env == env ==> p.state.lists.active == s.lists.active
    decreases |env|, |s.lists.runners|
  {
    hide State.Sound, Run1;
    if s.lists.runners == [] then Progress(s, env, Running)
    else
      var p := Run1(s, env);
      if p.status.Running? then Runners(p.state, p.env) else p
  }

  /** Actives and runners in turn until both lists are empty. */
  function Busy(s: State, env: seq<Script>): (p: Progress)
    requires s.Sound()
    ensures p.From(s, env) && p.state.freed == s.freed && !p.status.Collided?
    ensures p.status.Running? ==> p.state.lists.active == [] && p.state.lists.runners == []
    decreases |env|, |s.lists.active| + |s.lists.runners|
  {
    hide State.Sound, Actives, Runners;
    if s.lists.active == [] && s.lists.runners == [] then Progress(s, env, Running)
    else
      var p := Actives(s, env);
      if !p.status.Running? then p
      else
        var q := Runners(p.state, p.env);
        if q.status.Running? then Busy(q.state, q.env) else q
  }

  /** HandleEject may make requests; the FD it was called for is freed whatever they were. */
  function Eject1(s: State, env: seq<Script>): (p: Progress)
    requires s.Sound() && s.lists.ejects != []
    ensures p.From(s, env) && !p.status.Collided?
    ensures p.status.Running? ==> |p.env| < |env| && p.state.freed == s.freed + [s.lists.ejects[0]]
  {
    var h := s.lists.ejects[0];
    s.Unlinked(h);
    hide State.Sound, State.AskedAll, State.Freed, Without, Links.Erase;
    var t := s.(lists := s.lists.Erase(h));
    if env == [] then Progress(t, env, Stopped)
    else
      var (u, alive) := t.AskedAll(env[0].requests);
      if alive then Progress(u.Freed(h), env[1..], Running) else Progress(u, env[1..], Stopped)
  }

  function Ejecters(s: State, env: seq<Script>): (p: Progress)
    requires s.Sound()
    ensures p.From(s, env) && !p.status.Collided?
    ensures p.status.Running? ==> p.state.lists.ejects == []
    decreases |env|
  {
    hide State.Sound, Eject1;
    if s.lists.ejects == [] then Progress(s, env, Running)
    else
      var p := Eject1(s, env);
      if p.status.Running? then Ejecters(p.state, p.env) else p
  }

  /** RunClosers: every FD on the list is unlinked and freed. */
  function Closed(s: State): (r: State)
    requires s.Sound()
    ensures r.Sound() && r.lists.closers == [] && r.Shrunk(s)
    ensures r.freed == s.freed + s.lists.closers
    decreases |s.lists.closers|
  {
    if s.lists.closers == [] then s
    else
      hide State.Sound, State.Shrunk, CloseFirst;
      var t := CloseFirst(s);
      var r := Closed(t);
      r.ShrunkAgain(t, s);
      Regrouped(s.freed, s.lists.closers);
      r
  }

  lemma Regrouped(s: seq<Handle>, t: seq<Handle>)
    requires t != []
    ensures s + [t[0]] + t[1..] == s + t
  {}

  function CloseFirst(s: State): (r: State)
    requires s.Sound() && s.lists.closers != []
    ensures r.Sound() && r.lists.closers == s.lists.closers[1..] && r.Shrunk(s)
    ensures r.freed == s.freed + [s.lists.closers[0]]
  {
    s.Unlinked(s.lists.closers[0]);
    WithoutHead(s.lists.closers);
    hide State.Sound, State.Freed, Without;
    s.Freed(s.lists.closers[0])
  }

  lemma WithoutHead(s: seq<Handle>)
    requires NoDup(s) && s != []
    ensures Without(s, s[0]) == s[1..]
  {}

  /** RunIdlers looks at one idler, and pushes it back without looking at its hook. */
  function Idled(s: State, idle: Idle): (r: (State, Status))
    requires s.Sound()
    ensures r.0.Sound() && r.0.Later(s) && r.0.freed == s.freed
    ensures r.1.Collided? <==>
      s.lists.idlers != [] && idle.Accepted? && Relinked(idle.requests, s.lists.idlers[0]) && !r.1.Stopped?
  {
    if s.lists.idlers == [] then (s, Running)
    else
      var h := s.lists.idlers[0];
      s.Unlinked(h);
      assert h !in s.lists.closers;
      var t := s.(lists := s.lists.Erase(h));
      hide Gated, Links.Ok, Relinked, State.AskedAll, State.Doomed;
      match idle
      case NotExpired =>
        t.Moved(t.lists.PushIdle(h));
        (t.(lists := t.lists.PushIdle(h)), Running)
      case Accepted(rs) =>
        var (u, alive) := t.AskedAll(rs);
        t.AskedLinks(rs, h);
        if !alive then (u, Stopped)
        else if u.lists.Linked(h) then (u, Collided)
        else
          u.Moved(u.lists.PushIdle(h));
          (u.(lists := u.lists.PushIdle(h)), Running)
      case Refused(rs) =>
        var (u, alive) := t.AskedAll(rs);
        if alive then (u.Doomed(h), Running) else (u, Stopped)
  }

  /** One epoll report; a handle that was freed since stops the loop with an error. */
  function Reported(s: State, e: Ready): (r: (State, bool))
    requires s.Sound()
    ensures r.0.Sound() && r.0.Grown(s)
    ensures r.1 <==> e.h in s.perfds
    ensures r.1 && e.error ==> e.h in r.0.lists.closers
    ensures r.1 && !e.error ==>
      (r.0.perfds[e.h].wantsRead || r.0.perfds[e.h].wantsWrite ==> e.h in r.0.lists.active)
  {
    hide Gated, Links.Ok;
    if e.h !in s.perfds then (s, false)
    else if e.error then (s.Doomed(e.h), true)
    else
      var p := s.perfds[e.h].Notified(e);
      s.Changed(e.h, p);
      var t := s.(perfds := s.perfds[e.h := p]);
      if p.wantsRead || p.wantsWrite then
        var l := t.lists.Erase(e.h).PushActive(e.h);
        t.Moved(l);
        (t.(lists := l), true)
      else (t, true)
  }

  function ReportedAll(s: State, es: seq<Ready>): (r: (State, bool))
    requires s.Sound()
    ensures r.0.Sound() && r.0.Grown(s)
    decreases |es|
  {
    hide State.Sound, Reported;
    if es == [] then (s, true)
    else
      var (t, ok) := Reported(s, es[0]);
      if ok then ReportedAll(t, es[1..]) else (t, false)
  }

  /** The part of a pass that runs callbacks other than HandleIdle. */
  function Worked(s: State, ready: seq<Ready>, env: seq<Script>): (p: Progress)
    requires s.Sound()
    ensures p.From(s, env) && !p.status.Collided?
    ensures p.status.Running? ==> p.state.lists.ejects == []
  {
    hide State.Sound, ReportedAll, Busy, Ejecters;
    var (t, ok) := ReportedAll(s, ready);
    if !ok then Progress(t, env, Stopped)
    else
      var p := Busy(t, env);
      if p.status.Running? then Ejecters(p.state, p.env) else p
  }

  /** Closers, then admission; nothing admitted can close an FD. */
  function Finished(s: State, admitted: seq<Request>): (r: (State, bool))
    requires s.Sound()
    ensures r.0.Sound() && r.0.Later(s) && r.0.lists.closers == []
    ensures r.0.freed == s.freed + s.lists.closers
  {
    hide State.Sound, Closed, State.AskedAll;
    var t := Closed(s);
    t.AskedAll(admitted)
  }

  /** The rest of a pass: one idler, the closers, admission. */
  function Rested(s: State, turn: Turn): (r: (State, Status))
    requires s.Sound()
    ensures r.0.Sound() && r.0.Later(s)
    ensures r.1.Running? ==> r.0.lists.closers == []
    ensures r.1.Collided? ==> turn.idle.Accepted? && exists h: Handle :: Relinked(turn.idle.requests, h)
  {
    hide State.Sound, State.Later, Relinked, Idled, Finished;
    var (t, status) := Idled(s, turn.idle);
    if !status.Running? then (t, status)
    else
      var (u, alive) := Finished(t, turn.admitted);
      u.LaterAgain(t, s);
      (u, if alive then Running else Stopped)
  }

  /** One pass of the loop. */
  function Cycle(s: State, turn: Turn, env: seq<Script>): (p: Progress)
    requires s.Sound()
    ensures p.From(s, env)
    ensures p.status.Running? ==> p.state.lists.closers == []
    ensures p.status.Collided? ==> turn.idle.Accepted? && exists h: Handle :: Relinked(turn.idle.requests, h)
  {
    hide State.Sound, State.Later, Relinked, Worked, Rested;
    var p := Worked(s, turn.ready, env);
    if !p.status.Running? then p
    else
      var (t, status) := Rested(p.state, turn);
      t.LaterAgain(p.state, s);
      Progress(t, p.env, status)
  }

  function Execution(s: State, turns: seq<Turn>, env: seq<Script>): (p: Progress)
    requires s.Sound()
    ensures p.From(s, env)
    decreases |turns|
  {
    hide State.Sound, Cycle;
    if turns == [] then Progress(s, env, Running)
    else
      var p := Cycle(s, turns[0], env);
      if p.status.Running? then Execution(p.state, turns[1..], p.env) else p
  }

  /** Nothing is added yet. */
  function Start(): (s: State)
    ensures s.Sound()
  {
    State(Links([], [], [], [], []), map[], 0, [], [])
  }

  // ---- The silo itself ----

  class Silo {
    var active: seq<Handle>
    var idlers: seq<Handle>
    var ejects: seq<Handle>
    var runners: seq<Handle>
    var closers: seq<Handle>
    var perfds: map<Handle, PerFd>
    var next: Handle
    ghost var hist: seq<Event>
    ghost var freed: seq<Handle>

    ghost function Now(): State
      reads this
    {
      State(Links(active, idlers, ejects, runners, closers), perfds, next, hist, freed)
    }

    constructor ()
      ensures Now() == Start()
    {
      active, idlers, ejects, runners, closers := [], [], [], [], [];
      perfds, next, hist, freed := map[], 0, [], [];
    }

    predicate Linked(h: Handle)
      reads this
    {
      h in active || h in idlers || h in ejects
    }

    predicate SharedLinked(h: Handle)
      reads this
    {
      h in runners || h in closers
    }

    /** IntrusiveList::Erase for the ActiveIdle hook, which does not name the list. */
    method Erase(h: Handle)
      modifies this`active, this`idlers, this`ejects
      ensures Now() == old(Now()).(lists := old(Now()).lists.Erase(h))
    {
      active, idlers, ejects := Without(active, h), Without(idlers, h), Without(ejects, h);
    }

    method EraseShared(h: Handle)
      modifies this`runners, this`closers
      ensures Now() == old(Now()).(lists := old(Now()).lists.EraseShared(h))
    {
      runners, closers := Without(runners, h), Without(closers, h);
    }

    method Expunge(h: Handle)
      requires Now().Sound() && h in perfds
      modifies this`active, this`idlers, this`ejects, this`runners, this`closers, this`perfds
      ensures Now() == old(Now()).Expunged(h)
    {
      perfds := perfds[h := perfds[h].(wantsRead := false, wantsWrite := false)];
      Erase(h);
      EraseShared(h);
    }

    /** RequestRead and RequestWrite. */
    method RequestActivation(dir: Dir, h: Handle)
      requires Now().Sound() && h in perfds
      modifies this`active, this`idlers, this`ejects, this`perfds, this`hist
      ensures Now() == old(Now()).Activated(dir, h)
    {
      perfds := perfds[h := perfds[h].SetWants(dir, true).SetSquelched(dir, false)];
      Erase(h);
      active := active + [h];
      hist := hist + [Requested(dir, h)];
    }

    method Run(h: Handle)
      requires Now().Sound() && h in perfds
      modifies this`runners, this`perfds
      ensures Now() == old(Now()).Asked(Request.Run(h))
    {
      perfds := perfds[h := perfds[h].(fns := perfds[h].fns + 1)];
      if SharedLinked(h) {
        return;
      }
      runners := runners + [h];
    }

    method Eject(h: Handle)
      requires Now().Sound() && h in perfds
      modifies this`active, this`idlers, this`ejects, this`runners, this`closers, this`perfds
      ensures Now() == old(Now()).Asked(Request.Eject(h))
    {
      if Linked(h) {
        return;
      }
      Expunge(h);
      ejects := ejects + [h];
    }

    method Add()
      requires Now().Sound()
      modifies this`idlers, this`perfds, this`next
      ensures Now() == old(Now()).Added()
    {
      if |perfds| >= MAX_FDS {
        return;
      }
      perfds, next, idlers := perfds[next := FRESH], next + 1, idlers + [next];
    }

    /** One request; the caller has looked up its handle. */
    method Ask(r: Request)
      requires Now().Sound() && Now().Alive(r)
      modifies this
      ensures Now() == old(Now()).Asked(r)
    {
      match r
      case Activate(dir, h) => RequestActivation(dir, h);
      case Run(h) => Run(h);
      case Eject(h) => Eject(h);
      case Add => Add();
    }

    /** One callback's requests. */
    method Perform(requests: seq<Request>) returns (alive: bool)
      requires Now().Sound()
      modifies this
      ensures Now().Sound() && (Now(), alive) == old(Now()).AskedAll(requests)
    {
      hide State.Sound, State.Asked, State.Grown, State.Later;
      for i := 0 to |requests|
        invariant Now().Sound()
        invariant Now().AskedAll(requests[i..]) == old(Now()).AskedAll(requests)
      {
        var r := requests[i];
        assert r == requests[i..][0] && requests[i..][1..] == requests[i + 1..];
        if !r.Add? && r.h !in perfds {
          return false;
        }
        Ask(r);
      }
      alive := true;
    }

    /** Expunged and pushed on the closers list. */
    method Close(h: Handle)
      requires Now().Sound() && h in perfds
      modifies this
      ensures Now() == old(Now()).Doomed(h)
    {
      Expunge(h);
      closers := closers + [h];
    }

    /** What the silo does when a handler returns. */
    method Return(dir: Dir, h: Handle, outcome: Outcome)
      requires Now().Sound() && InCall(hist, perfds, dir, h)
      modifies this
      ensures Now() == old(Now()).Left(dir, h, outcome)
    {
      GatedReturn(hist, perfds, dir, h, outcome);
      Now().Logged(Returned(dir, h, outcome), Flags(perfds[h], dir, outcome));
      hide State.Sound, State.Doomed, InCall;
      hist := hist + [Returned(dir, h, outcome)];
      match outcome
      case FdEagain =>
        assert perfds == perfds[h := perfds[h]];
      case Yield =>
        perfds := perfds[h := perfds[h].SetWants(dir, true)];
      case Suspend =>
        perfds := perfds[h := perfds[h].SetSquelched(dir, true)];
      case Close =>
        assert perfds == perfds[h := perfds[h]];
        Close(h);
    }

    /** One HandleRead or HandleWrite, if it is wanted, and what its outcome leads to. */
    method Call(dir: Dir, h: Handle, env: seq<Script>) returns (rest: seq<Script>, status: Status)
      requires Now().Sound() && h in perfds
      modifies this
      ensures Now().Sound() && Progress(Now(), rest, status) == Serve(old(Now()), env, dir, h)
    {
      hide State.Sound, State.AskedAll, State.Left, PerFd.Wants, InCall;
      if !perfds[h].Wants(dir) {
        return env, Running;
      }
      if env == [] {
        return env, Stopped;
      }
      ghost var entered := Now().Entered(dir, h);
      perfds := perfds[h := perfds[h].SetWants(dir, false)];
      hist := hist + [Called(dir, h)];
      assert Now() == entered;
      entered.AskedInCall(env[0].requests, dir, h);
      rest := env[1..];
      var alive := Perform(env[0].requests);
      if !alive {
        return rest, Stopped;
      }
      status := Running;
      Return(dir, h, env[0].outcome);
    }

    /** Back to the active or the idlers list, unless the callbacks linked the FD already. */
    method Settle(h: Handle)
      requires Now().Sound() && h in perfds
      modifies this`active, this`idlers
      ensures Now() == old(Now()).Settled(h)
    {
      if SharedLinked(h) || Linked(h) {
        return;
      }
      if perfds[h].wantsRead || perfds[h].wantsWrite {
        active := active + [h];
      } else {
        idlers := idlers + [h];
      }
    }

    method RunActives(env: seq<Script>) returns (rest: seq<Script>, status: Status)
      requires Now().Sound()
      modifies this
      ensures Now().Sound() && Progress(Now(), rest, status) == Actives(old(Now()), env)
    {
      hide State.Sound, State.Settled, Serve;
      rest := env;
      while active != []
        invariant Now().Sound() && Actives(Now(), rest) == Actives(old(Now()), env)
        decreases |rest|, |active|
      {
        ghost var before, left := Now(), rest;
        var h := active[0];
        before.Unlinked(h);
        Erase(h);
        rest, status := Call(Read, h, rest);
        if !status.Running? {
          return;
        }
        rest, status := Call(Write, h, rest);
        if !status.Running? {
          return;
        }
        Settle(h);
        assert Progress(Now(), rest, Running) == Activate1(before, left);
      }
      status := Running;
    }

    /** fns.pop_front. */
    method Pop(h: Handle)
      requires Now().Sound() && h in perfds && perfds[h].fns > 0
      modifies this`perfds
      ensures Now().Sound() && h in perfds
      ensures perfds == old(perfds)[h := old(perfds)[h].(fns := old(perfds)[h].fns - 1)]
    {
      Now().Changed(h, perfds[h].(fns := perfds[h].fns - 1));
      hide State.Sound;
      perfds := perfds[h := perfds[h].(fns := perfds[h].fns - 1)];
    }

    /** The inner loop of RunRunners. */
    method Drain(h: Handle, env: seq<Script>) returns (rest: seq<Script>, status: Status)
      requires Now().Sound() && h in perfds
      modifies this
      ensures Now().Sound() && Progress(Now(), rest, status) == Drained(old(Now()), env, h)
    {
      hide State.Sound, State.AskedAll;
      rest := env;
      while perfds[h].fns > 0
        invariant Now().Sound() && h in perfds && Drained(Now(), rest, h) == Drained(old(Now()), env, h)
        decreases |rest|
      {
        if rest == [] {
          return rest, Stopped;
        }
        Pop(h);
        var alive := Perform(rest[0].requests);
        rest := rest[1..];
        if !alive {
          return rest, Stopped;
        }
      }
      status := Running;
    }

    method RunRunners(env: seq<Script>) returns (rest: seq<Script>, status: Status)
      requires Now().Sound()
      modifies this
      ensures Now().Sound() && Progress(Now(), rest, status) == Runners(old(Now()), env)
    {
      hide State.Sound, Drained;
      rest := env;
      while runners != []
        invariant Now().Sound() && Runners(Now(), rest) == Runners(old(Now()), env)
        decreases |rest|, |runners|
      {
        ghost var before, left := Now(), rest;
        var h := runners[0];
        before.Unlinked(h);
        EraseShared(h);
        rest, status := Drain(h, rest);
        assert Progress(Now(), rest, status) == Run1(before, left);
        if !status.Running? {
          return;
        }
      }
      status := Running;
    }

    /** The handle is dead from here on, and the destructor unlinks both hooks. */
    method Free(h: Handle)
      requires Now().Sound() && h in perfds
      modifies this
      ensures Now() == old(Now()).Freed(h)
    {
      Erase(h);
      EraseShared(h);
      perfds := perfds - {h};
      freed := freed + [h];
    }

    method RunEjecters(env: seq<Script>) returns (rest: seq<Script>, status: Status)
      requires Now().Sound()
      modifies this
      ensures Now().Sound() && Progress(Now(), rest, status) == Ejecters(old(Now()), env)
    {
      hide State.Sound, State.AskedAll, State.Freed;
      rest := env;
      while ejects != []
        invariant Now().Sound() && Ejecters(Now(), rest) == Ejecters(old(Now()), env)
        decreases |rest|
      {
        ghost var before, left := Now(), rest;
        var h := ejects[0];
        before.Unlinked(h);
        Erase(h);
        if rest == [] {
          assert Progress(Now(), rest, Stopped) == Eject1(before, left);
          return rest, Stopped;
        }
        var alive := Perform(rest[0].requests);
        rest := rest[1..];
        if !alive {
          assert Progress(Now(), rest, Stopped) == Eject1(before, left);
          return rest, Stopped;
        }
        Free(h);
        assert Progress(Now(), rest, Running) == Eject1(before, left);
      }
      status := Running;
    }

    method RunClosers()
      requires Now().Sound()
      modifies this
      ensures Now() == Closed(old(Now()))
    {
      hide State.Sound, State.Freed, State.Shrunk;
      while closers != []
        invariant Now().Sound() && Closed(Now()) == Closed(old(Now()))
        decreases |closers|
      {
        var h := closers[0];
        Now().Unlinked(h);
        assert CloseFirst(Now()) == Now().Freed(h);
        Free(h);
      }
    }

    /** Looks at one idler, and pushes it back without looking at its hook. */
    method RunIdlers(idle: Idle) returns (status: Status)
      requires Now().Sound()
      modifies this
      ensures (Now(), status) == Idled(old(Now()), idle)
    {
      hide State.Sound, State.AskedAll, State.Doomed, Relinked, Links.Ok;
      if idlers == [] {
        return Running;
      }
      var h := idlers[0];
      Now().Unlinked(h);
      Erase(h);
      match idle
      case NotExpired =>
        idlers := idlers + [h];
        status := Running;
      case Accepted(requests) =>
        var alive := Perform(requests);
        if !alive {
          return Stopped;
        }
        if Linked(h) {
          return Collided;
        }
        idlers := idlers + [h];
        status := Running;
      case Refused(requests) =>
        var alive := Perform(requests);
        if !alive {
          return Stopped;
        }
        Close(h);
        status := Running;
    }

    /** The body of the loop over epoll's reports. */
    method Report(e: Ready) returns (ok: bool)
      requires Now().Sound()
      modifies this
      ensures (Now(), ok) == Reported(old(Now()), e)
    {
      hide State.Sound, State.Doomed;
      if e.h !in perfds {
        return false;
      }
      if e.error {
        Close(e.h);
        return true;
      }
      var p := perfds[e.h];
      if e.input && !p.squelchReads {
        p := p.(wantsRead := true);
      }
      if e.output && !p.squelchWrites {
        p := p.(wantsWrite := true);
      }
      perfds := perfds[e.h := p];
      if p.wantsRead || p.wantsWrite {
        Erase(e.h);
        active := active + [e.h];
      }
      ok := true;
    }

    method Work(ready: seq<Ready>, env: seq<Script>) returns (rest: seq<Script>, status: Status)
      requires Now().Sound()
      modifies this
      ensures Now().Sound() && Progress(Now(), rest, status) == Worked(old(Now()), ready, env)
    {
      hide State.Sound, Reported, Actives, Runners, Ejecters;
      rest := env;
      for i := 0 to |ready|
        invariant Now().Sound()
        invariant ReportedAll(Now(), ready[i..]) == ReportedAll(old(Now()), ready)
      {
        assert ready[i] == ready[i..][0] && ready[i..][1..] == ready[i + 1..];
        var ok := Report(ready[i]);
        if !ok {
          return env, Stopped;
        }
      }
      ghost var reported := Now();
      while active != [] || runners != []
        invariant Now().Sound() && Busy(Now(), rest) == Busy(reported, env)
        decreases |rest|, |active| + |runners|
      {
        rest, status := RunActives(rest);
        if !status.Running? {
          return;
        }
        rest, status := RunRunners(rest);
        if !status.Running? {
          return;
        }
      }
      rest, status := RunEjecters(rest);
    }

    method Pass(turn: Turn, env: seq<Script>) returns (rest: seq<Script>, status: Status)
      requires Now().Sound()
      modifies this
      ensures Now().Sound() && Progress(Now(), rest, status) == Cycle(old(Now()), turn, env)
    {
      hide State.Sound, Worked, Idled, Closed, State.AskedAll;
      rest, status := Work(turn.ready, env);
      if !status.Running? {
        return;
      }
      status := RunIdlers(turn.idle);
      if !status.Running? {
        return;
      }
      RunClosers();
      var alive := Perform(turn.admitted);
      status := if alive then Running else Stopped;
    }

    /** The loop of ThreadMain2, over every sequence of turns and callbacks. */
    method ThreadMain(turns: seq<Turn>, env: seq<Script>) returns (rest: seq<Script>, status: Status)
      requires Now().Sound()
      modifies this
      ensures Progress(Now(), rest, status) == Execution(old(Now()), turns, env)
    {
      hide State.Sound, Cycle;
      rest := env;
      for i := 0 to |turns|
        invariant Now().Sound()
        invariant Execution(Now(), turns[i..], rest) == Execution(old(Now()), turns, env)
      {
        assert turns[i] == turns[i..][0] && turns[i..][1..] == turns[i + 1..];
        rest, status := Pass(turns[i], rest);
        if !status.Running? {
          return;
        }
      }
      status := Running;
    }
  }
}
