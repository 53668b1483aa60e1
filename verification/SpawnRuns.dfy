/** What holds on every run of one DoryProcessSpawn. */
module SpawnRuns {
  import opened Spawn

  /** A run: its events, and the states before, between and after them. */
  datatype Run = Run(states: seq<Child>, events: seq<Event>) {
    ghost predicate Moves(i: nat)
      requires i < |events| && |states| == |events| + 1
    {
      states[i].Enabled(events[i]) && states[i + 1] == states[i].Step(events[i])
    }

    /** The environment can produce it. */
    ghost predicate Legal() {
      |states| == |events| + 1 && forall i :: 0 <= i < |events| ==> Moves(i)
    }

    /** It starts with a new object. */
    ghost predicate Possible() {
      Legal() && states[0] == Fresh(states[0].timeout, states[0].pid)
    }

    /** The exit callback, or the end of stderr, is among the first `n` events. */
    ghost predicate Exited(n: nat)
      requires n <= |events|
    {
      exists i :: 0 <= i < n && events[i].ExitCb?
    }

    ghost predicate StderrEnded(n: nat)
      requires n <= |events|
    {
      exists i :: 0 <= i < n && IsStderrEnd(events[i])
    }

    function Then(ev: Event): Run
      requires states != []
    {
      Run(states + [states[|states| - 1].Step(ev)], events + [ev])
    }
  }

  predicate IsExit(e: Effect) { e.Emit? && e.emission.Exit? }

  predicate IsTimeout(e: Effect) { e == Emit(Timeout) }

  predicate IsStderr(e: Effect) { e.Emit? && e.emission.Stderr? }

  /** A read callback that ends the stderr pipe. */
  predicate IsStderrEnd(ev: Event) { ev.ReadCb? && ev.stream == Err && ev.result.Ends() }

  function Count<T>(p: T -> bool, s: seq<T>): nat {
    if s == [] then 0 else Count(p, s[..|s| - 1]) + if p(s[|s| - 1]) then 1 else 0
  }

  function Ones(b: bool): nat { if b then 1 else 0 }

  /** After "exit" come neither stderr chunks nor "timeout". */
  ghost predicate Quiet(log: seq<Effect>) {
    forall i, j :: 0 <= i < j < |log| && IsExit(log[i]) ==> !IsStderr(log[j]) && !IsTimeout(log[j])
  }

  /** A buffer is held, and a pipe was closed, only if it was being read. */
  predicate PipeOk(p: Pipe) {
    (p.pending ==> p.reading && !p.handle.IsClosing()) && (p.handle.IsClosing() ==> p.reading)
  }

  /** The handles and buffers: everything is closed at most once, and every buffer
      handed out has been freed or is held for a pending read. */
  ghost predicate HandlesOk(c: Child) {
    && c.process.closes == Ones(c.exited)
    && c.pipeErr.handle.closes == Ones(c.stderrFlushed)
    && c.pipeOut.handle.closes <= 1 && c.timer.closes <= 1
    && (c.exited && c.timer.inited ==> c.timer.IsClosing())
    && (c.timer.IsClosing() ==> c.timer.inited)
    && (!c.called ==> !c.started && !c.timer.inited)
    && (c.exited ==> c.started) && (c.stderrFlushed ==> c.pipeErr.reading)
    && (c.pipeOut.reading || c.pipeErr.reading ==> c.started)
    && PipeOk(c.pipeOut) && PipeOk(c.pipeErr)
    && c.allocs == c.frees + Ones(c.pipeOut.pending) + Ones(c.pipeErr.pending)
  }

  /** The effects: "exit" was emitted once if `gone`, else not at all, with the status
      and signal given; "timeout" at most `timeouts` times. */
  ghost predicate LogOk(log: seq<Effect>, gone: bool, status: int, signal: int, timeouts: nat) {
    && Count(IsExit, log) == Ones(gone)
    && Count(IsTimeout, log) <= timeouts
    && (forall e :: e in log && IsExit(e) ==> e == Emit(Exit(status, signal)))
    && Quiet(log)
  }

  /** The invariant of a child process. */
  ghost predicate Inv(c: Child) {
    HandlesOk(c) && LogOk(c.log, c.exited && c.stderrFlushed, c.exitStatus, c.termSignal, c.timer.closes)
  }

  lemma {:induction false} CountNone<T>(p: T -> bool, s: seq<T>)
    ensures Count(p, s) == 0 <==> forall x :: x in s ==> !p(x)
  {
    if s == [] {
    } else {
      CountNone(p, s[..|s| - 1]);
      assert s == s[..|s| - 1] + [s[|s| - 1]];
    }
  }

  lemma CountAdd<T>(p: T -> bool, s: seq<T>, x: T)
    ensures Count(p, s + [x]) == Count(p, s) + if p(x) then 1 else 0
  {
    assert (s + [x])[..|s|] == s;
  }

  /** One more effect on a log: "exit" only once, stderr and "timeout" only before it. */
  lemma Logged(log: seq<Effect>, gone: bool, status: int, signal: int, timeouts: nat, e: Effect)
    requires LogOk(log, gone, status, signal, timeouts)
    requires gone ==> !IsExit(e) && !IsStderr(e) && !IsTimeout(e)
    requires IsExit(e) ==> e == Emit(Exit(status, signal))
    ensures LogOk(log + [e], gone || IsExit(e), status, signal, timeouts + Ones(IsTimeout(e)))
  {
    CountAdd(IsExit, log, e);
    CountAdd(IsTimeout, log, e);
    CountNone(IsExit, log);
  }

  /** What one event adds to the log. */
  function Effects(c: Child, ev: Event): seq<Effect> {
    match ev
    case CallSpawn(o) => if o.spawn == 0 && (o.readOut != 0 || o.readErr != 0) then [Kill(SIGKILL)] else []
    case TimerCb => [Emit(Timeout), Kill(SIGKILL)]
    case ExitCb(status, signal) => if c.stderrFlushed then [Emit(Exit(status, signal))] else []
    case AllocCb(_) => []
    case ReadCb(s, r) => ReadSays(s, r, s == Err && r.Ends() && c.exited, c.exitStatus, c.termSignal)
  }

  lemma StepLog(c: Child, ev: Event)
    ensures c.Step(ev).log == c.log + Effects(c, ev)
  {
    match ev
    case CallSpawn(o) =>
    case TimerCb => assert c.log + [Emit(Timeout)] + [Kill(SIGKILL)] == c.log + [Emit(Timeout), Kill(SIGKILL)];
    case ExitCb(_, _) =>
    case AllocCb(_) =>
    case ReadCb(s, r) => ReadLog(c, s, r);
  }

  lemma ReadLog(c: Child, s: Stream, r: ReadResult)
    ensures c.OnRead(s, r).log == c.log + Effects(c, ReadCb(s, r))
  {
    if r.Ends() {
      Regroup(c.log, Kill(SIGTERM), Emit(Exit(c.exitStatus, c.termSignal)));
      if s == Err { StderrEndLog(c.Freed(Err), r.Failed?); }
    }
  }

  lemma StderrEndLog(c: Child, failed: bool)
    ensures var log := if failed then c.log + [Kill(SIGTERM)] else c.log;
            c.OnStderrEnd(failed).log == if c.exited then log + [Emit(Exit(c.exitStatus, c.termSignal))] else log
  {}

  lemma Regroup(log: seq<Effect>, k: Effect, e: Effect)
    ensures log + [k] + [e] == log + ([k] + [e])
    ensures log + ([k] + []) == log + [k] && log + ([] + [e]) == log + [e] && log + ([] + []) == log
  {}

  lemma SpawnHandles(c: Child, o: Outcome)
    requires HandlesOk(c) && !c.called
    ensures HandlesOk(c.OnSpawn(o))
  {
    var d := c.(called := true, timer := c.timer.(inited := c.timer.inited || c.timeout > 0));
    if o.spawn == 0 { StartHandles(d.(started := true, pid := o.pid), o); }
  }

  lemma StartHandles(c: Child, o: Outcome)
    requires HandlesOk(c) && c.called && c.started
    ensures HandlesOk(c.StartReading(o))
  {}

  lemma ReadHandles(c: Child, s: Stream, r: ReadResult)
    requires HandlesOk(c) && c.Enabled(ReadCb(s, r))
    ensures HandlesOk(c.OnRead(s, r))
  {
    FreedHandles(c, s);
    if r.Ends() {
      if s == Out { StdoutHandles(c.Freed(Out), r.Failed?); } else { StderrHandles(c.Freed(Err), r.Failed?); }
    }
  }

  lemma FreedHandles(c: Child, s: Stream)
    requires HandlesOk(c) && c.PipeOf(s).pending
    ensures HandlesOk(c.Freed(s))
  {}

  lemma StdoutHandles(c: Child, failed: bool)
    requires HandlesOk(c) && c.pipeOut.reading && !c.pipeOut.handle.IsClosing() && !c.pipeOut.pending
    ensures HandlesOk(c.OnStdoutEnd(failed))
  {}

  lemma StderrHandles(c: Child, failed: bool)
    requires HandlesOk(c) && c.pipeErr.reading && !c.pipeErr.handle.IsClosing() && !c.pipeErr.pending
    ensures HandlesOk(c.OnStderrEnd(failed))
  {}

  lemma StepHandles(c: Child, ev: Event)
    requires HandlesOk(c) && c.Enabled(ev)
    ensures HandlesOk(c.Step(ev))
  {
    match ev
    case CallSpawn(o) => SpawnHandles(c, o);
    case TimerCb =>
    case ExitCb(_, _) =>
    case AllocCb(_) =>
    case ReadCb(s, r) => ReadHandles(c, s, r);
  }

  /** Before "exit" the status and signal may still be set. */
  lemma Unsaid(log: seq<Effect>, status: int, signal: int, timeouts: nat, status': int, signal': int)
    requires LogOk(log, false, status, signal, timeouts)
    ensures LogOk(log, false, status', signal', timeouts)
  {
    CountNone(IsExit, log);
  }

  lemma InvFresh(timeout: nat, pid: int)
    ensures Inv(Fresh(timeout, pid))
  {}

  lemma LogTimer(log: seq<Effect>, status: int, signal: int)
    requires LogOk(log, false, status, signal, 0)
    ensures LogOk(log + [Emit(Timeout), Kill(SIGKILL)], false, status, signal, 1)
  {
    Logged(log, false, status, signal, 0, Emit(Timeout));
    Logged(log + [Emit(Timeout)], false, status, signal, 1, Kill(SIGKILL));
    assert log + [Emit(Timeout)] + [Kill(SIGKILL)] == log + [Emit(Timeout), Kill(SIGKILL)];
  }

  lemma LogRead(c: Child, s: Stream, r: ReadResult)
    requires Inv(c) && c.Enabled(ReadCb(s, r))
    ensures LogOk(c.log + Effects(c, ReadCb(s, r)), c.exited && (c.stderrFlushed || (s == Err && r.Ends())),
                  c.exitStatus, c.termSignal, c.timer.closes)
  {
    var exits := s == Err && r.Ends() && c.exited;
    assert exits ==> !c.stderrFlushed;
    LogReadOf(c.log, c.exited && c.stderrFlushed, c.exitStatus, c.termSignal, c.timer.closes, s, r, exits);
  }

  /** What a read callback adds to a log. */
  function ReadSays(s: Stream, r: ReadResult, exits: bool, status: int, signal: int): seq<Effect> {
    if r.Data? then [Emit(if s == Out then Stdout(r.bytes) else Stderr(r.bytes))]
    else (if r.Failed? then [Kill(SIGTERM)] else []) + if exits then [Emit(Exit(status, signal))] else []
  }

  lemma LogReadOf(log: seq<Effect>, gone: bool, status: int, signal: int, n: nat, s: Stream, r: ReadResult, exits: bool)
    requires LogOk(log, gone, status, signal, n) && !(gone && exits) && (exits ==> r.Ends())
    requires gone ==> !(s == Err && r.Data?)
    ensures LogOk(log + ReadSays(s, r, exits, status, signal), gone || exits, status, signal, n)
  {
    if r.Data? {
      Logged(log, gone, status, signal, n, Emit(if s == Out then Stdout(r.bytes) else Stderr(r.bytes)));
    } else {
      LogEnd(log, gone, status, signal, n, r.Failed?, exits);
    }
  }

  /** A read that brings no bytes. */
  lemma LogEnd(log: seq<Effect>, gone: bool, status: int, signal: int, n: nat, failed: bool, exits: bool)
    requires LogOk(log, gone, status, signal, n) && !(gone && exits)
    ensures LogOk(log + ((if failed then [Kill(SIGTERM)] else []) +
                         if exits then [Emit(Exit(status, signal))] else []), gone || exits, status, signal, n)
  {
    var k, e := Kill(SIGTERM), Emit(Exit(status, signal));
    Regroup(log, k, e);
    if failed { Logged(log, gone, status, signal, n, k); }
    if exits { Logged(if failed then log + [k] else log, gone, status, signal, n, e); }
  }

  lemma LogExit(c: Child, status: int, signal: int)
    requires Inv(c) && c.Enabled(ExitCb(status, signal))
    ensures LogOk(c.log + Effects(c, ExitCb(status, signal)), c.stderrFlushed, status, signal,
            c.OnExit(status, signal).timer.closes)
  {
    Unsaid(c.log, c.exitStatus, c.termSignal, c.timer.closes, status, signal);
    Logged(c.log, false, status, signal, c.timer.closes, Emit(Exit(status, signal)));
    assert c.log + [] == c.log;
  }

  lemma LogSpawn(c: Child, o: Outcome)
    requires Inv(c) && !c.called
    ensures LogOk(c.log + Effects(c, CallSpawn(o)), false, c.exitStatus, c.termSignal, c.timer.closes)
  {
    Logged(c.log, false, c.exitStatus, c.termSignal, c.timer.closes, Kill(SIGKILL));
    assert c.log + [] == c.log;
  }

  /** What an event does to the flags, the saved status and the timer. */
  ghost predicate FlagsStep(c: Child, ev: Event, d: Child) {
    (d.exited <==> c.exited || ev.ExitCb?) && (d.stderrFlushed <==> c.stderrFlushed || IsStderrEnd(ev)) &&
    (if ev.ExitCb? then d.exitStatus == ev.status && d.termSignal == ev.signal
     else d.exitStatus == c.exitStatus && d.termSignal == c.termSignal) &&
    d.timer.closes == (if ev.TimerCb? || (ev.ExitCb? && c.timer.inited) then c.ClearTimer() else c).timer.closes
  }

  lemma SpawnFlags(c: Child, o: Outcome)
    ensures FlagsStep(c, CallSpawn(o), c.OnSpawn(o))
  {}

  lemma ReadFlags(c: Child, s: Stream, r: ReadResult)
    ensures FlagsStep(c, ReadCb(s, r), c.OnRead(s, r))
  {}

  lemma StepFlags(c: Child, ev: Event)
    ensures FlagsStep(c, ev, c.Step(ev))
  {
    match ev
    case CallSpawn(o) => SpawnFlags(c, o);
    case TimerCb =>
    case ExitCb(_, _) =>
    case AllocCb(_) =>
    case ReadCb(s, r) => ReadFlags(c, s, r);
  }

  lemma LogStep(c: Child, ev: Event, d: Child)
    requires Inv(c) && c.Enabled(ev) && FlagsStep(c, ev, d)
    ensures LogOk(c.log + Effects(c, ev), d.exited && d.stderrFlushed, d.exitStatus, d.termSignal, d.timer.closes)
  {
    match ev
    case CallSpawn(o) => LogSpawn(c, o);
    case TimerCb => LogTimer(c.log, c.exitStatus, c.termSignal);
    case ExitCb(status, signal) => LogExit(c, status, signal);
    case AllocCb(s) => assert c.log + [] == c.log;
    case ReadCb(s, r) => LogRead(c, s, r);
  }

  /** Every enabled event keeps the invariant. */
  lemma InvStep(c: Child, ev: Event)
    requires Inv(c) && c.Enabled(ev)
    ensures Inv(c.Step(ev))
  {
    StepLog(c, ev);
    StepHandles(c, ev);
    StepFlags(c, ev);
    LogStep(c, ev, c.Step(ev));
  }

  /** It is kept all along a run that starts with it. */
  lemma {:induction false} Along(r: Run, n: nat)
    requires r.Legal() && Inv(r.states[0]) && n <= |r.events|
    ensures Inv(r.states[n])
  {
    if n == 0 {
    } else {
      Along(r, n - 1);
      assert r.Moves(n - 1);
      InvStep(r.states[n - 1], r.events[n - 1]);
    }
  }

  /** In every reachable state the invariant holds. */
  lemma Reachable(r: Run, n: nat)
    requires r.Possible() && n <= |r.events|
    ensures Inv(r.states[n])
  {
    InvFresh(r.states[0].timeout, r.states[0].pid);
    Along(r, n);
  }

  // ----- what happened in a run

  /** The two flags say which of the two events have happened. */
  lemma {:induction false} Flags(r: Run, n: nat)
    requires r.Possible() && n <= |r.events|
    ensures (r.states[n].exited <==> r.Exited(n)) && (r.states[n].stderrFlushed <==> r.StderrEnded(n))
  {
    if n == 0 {
    } else {
      Flags(r, n - 1);
      assert r.Moves(n - 1);
      StepFlags(r.states[n - 1], r.events[n - 1]);
    }
  }

  /** Once the exit callback has run, it does not run again, and neither does the timer
      callback, which alone emits "timeout" and sends SIGKILL for it, whether or not
      stderr is still open. */
  lemma AfterExitCallback(r: Run, i: nat, j: nat)
    requires r.Possible() && i < j < |r.events| && r.events[i].ExitCb?
    ensures !r.events[j].ExitCb? && !r.events[j].TimerCb?
  {
    Reachable(r, j);
    Flags(r, j);
    assert r.Moves(j);
  }

  /** The saved status and signal are those of the exit callback. */
  lemma {:induction false} Saved(r: Run, n: nat, i: nat)
    requires r.Possible() && i < n <= |r.events| && r.events[i].ExitCb?
    ensures r.states[n].exitStatus == r.events[i].status && r.states[n].termSignal == r.events[i].signal
  {
    assert r.Moves(n - 1);
    StepFlags(r.states[n - 1], r.events[n - 1]);
    if i < n - 1 {
      Saved(r, n - 1, i);
      AfterExitCallback(r, i, n - 1);
    }
  }

  /** "exit" is emitted exactly once when both the exit callback and the end of stderr
      have happened, in either order, and not at all before; it carries the status and
      signal the exit callback was given. */
  lemma ExitOnce(r: Run, n: nat)
    requires r.Possible() && n <= |r.events|
    ensures var log := r.states[n].log;
            Count(IsExit, log) == Ones(r.Exited(n) && r.StderrEnded(n)) &&
            forall e, i :: e in log && IsExit(e) && 0 <= i < n && r.events[i].ExitCb? ==>
              e == Emit(Exit(r.events[i].status, r.events[i].signal))
  {
    Reachable(r, n);
    Flags(r, n);
    forall i | 0 <= i < n && r.events[i].ExitCb?
      ensures r.states[n].exitStatus == r.events[i].status && r.states[n].termSignal == r.events[i].signal
    {
      Saved(r, n, i);
    }
  }

  /** The event at which "exit" is emitted is the later one of the two. */
  lemma ExitAtTheLater(r: Run, n: nat)
    requires r.Possible() && n < |r.events|
    ensures Count(IsExit, r.states[n + 1].log) > Count(IsExit, r.states[n].log) <==>
            (r.events[n].ExitCb? && r.StderrEnded(n)) || (IsStderrEnd(r.events[n]) && r.Exited(n))
  {
    ExitOnce(r, n);
    ExitOnce(r, n + 1);
    Flags(r, n);
    Flags(r, n + 1);
    FlagsOnce(r, n);
  }

  /** Each flag is set at most once, by its own event. */
  lemma FlagsOnce(r: Run, n: nat)
    requires r.Possible() && n < |r.events|
    ensures var c, ev, d := r.states[n], r.events[n], r.states[n + 1];
            (d.exited <==> c.exited || ev.ExitCb?) && (ev.ExitCb? ==> !c.exited) &&
            (d.stderrFlushed <==> c.stderrFlushed || IsStderrEnd(ev)) && (IsStderrEnd(ev) ==> !c.stderrFlushed)
  {
    Reachable(r, n);
    assert r.Moves(n);
    StepFlags(r.states[n], r.events[n]);
  }

  /** No stderr chunk and no "timeout" follows "exit"; "timeout" comes at most once. */
  lemma NothingAfterExit(r: Run, n: nat)
    requires r.Possible() && n <= |r.events|
    ensures Quiet(r.states[n].log) && Count(IsTimeout, r.states[n].log) <= 1
  {
    Reachable(r, n);
  }

  /** Each handle is closed at most once, and no buffer is lost or freed twice. */
  lemma HandlesAndBuffers(r: Run, n: nat)
    requires r.Possible() && n <= |r.events|
    ensures var c := r.states[n];
            c.process.closes <= 1 && c.timer.closes <= 1 &&
            c.pipeOut.handle.closes <= 1 && c.pipeErr.handle.closes <= 1 &&
            c.allocs == c.frees + Ones(c.pipeOut.pending) + Ones(c.pipeErr.pending)
  {
    Reachable(r, n);
  }

  // ----- what does not hold, on concrete runs

  lemma Extend(r: Run, ev: Event)
    requires r.Legal() && r.states[|r.events|].Enabled(ev)
    ensures r.Then(ev).Legal() && (r.Possible() ==> r.Then(ev).Possible())
  {
    var t := r.Then(ev);
    forall i | 0 <= i < |t.events| ensures t.Moves(i) {
      assert i < |r.events| ==> r.Moves(i);
    }
  }

  /** stdout may come after "exit": the exit gate waits for stderr only. */
  lemma StdoutAfterExit(bytes: seq<byte>)
    requires bytes != []
    ensures exists r: Run :: r.Possible() && r.states[|r.events|].log == [Emit(Exit(0, 0)), Emit(Stdout(bytes))]
  {
    var r := RunOut();
    Extend(r, AllocCb(Out));
    Extend(r.Then(AllocCb(Out)), ReadCb(Out, Data(bytes)));
    var all := r.Then(AllocCb(Out)).Then(ReadCb(Out, Data(bytes)));
    assert all.states[|all.events|].log == [Emit(Exit(0, 0))] + [Emit(Stdout(bytes))];
    assert all.Possible();
  }

  lemma RunOut() returns (r: Run)
    ensures r.Possible()
    ensures var c := r.states[|r.events|];
            c.log == [Emit(Exit(0, 0))] && c.pipeOut == Pipe(Handle(true, 0), true, false)
  {
    var e1, e2, e3, e4 := CallSpawn(Outcome(0, 7, 0, 0)), AllocCb(Err), ReadCb(Err, Eof), ExitCb(0, 0);
    var r0 := Run([Fresh(0, 0)], []);
    Extend(r0, e1);
    Extend(r0.Then(e1), e2);
    Extend(r0.Then(e1).Then(e2), e3);
    Extend(r0.Then(e1).Then(e2).Then(e3), e4);
    r := r0.Then(e1).Then(e2).Then(e3).Then(e4);
  }

  /** A run begins with spawn(). */
  lemma {:induction false} SpawnFirst(r: Run, n: nat)
    requires r.Possible() && 0 < n <= |r.events|
    ensures r.events[0].CallSpawn? && r.states[n].called
    ensures n < |r.events| ==> !r.events[n].CallSpawn?
  {
    assert r.Moves(0) && r.Moves(n - 1) && (n < |r.events| ==> r.Moves(n));
    StepReading(r.states[n - 1], r.events[n - 1]);
    if n > 1 {
      SpawnFirst(r, n - 1);
    }
  }

  /** After a failed uv_spawn one thing can still happen: the timer callback, which then
      kills a process that never started. It can exactly if a timeout was set. */
  lemma AfterFailedSpawn(r: Run)
    requires r.Possible() && r.events != [] && r.events[0].CallSpawn? && r.events[0].outcome.spawn != 0
    ensures !r.states[1].started && (r.states[1].Enabled(TimerCb) <==> r.states[0].timeout > 0)
    ensures |r.events| > 1 ==>
              |r.events| == 2 && r.events[1].TimerCb? && r.states[2].log == [Emit(Timeout), Kill(SIGKILL)]
  {
    assert r.Moves(0);
    if |r.events| > 1 {
      SpawnFirst(r, 1);
      assert r.Moves(1);
      NothingLeft(r.states[1], r.events[1]);
      assert |r.events| > 2 ==> r.Moves(2);
    }
  }

  /** Nothing but a running timer can call back for a process that never started. */
  lemma NothingLeft(c: Child, ev: Event)
    requires c.called && !c.started && !c.pipeOut.reading && !c.pipeErr.reading && c.Enabled(ev)
    ensures ev.TimerCb? && forall e :: !c.Step(ev).Enabled(e)
  {}

  /** When reading of stderr could not be started, "exit" is never emitted. */
  lemma NoExitWithoutStderr(r: Run, n: nat)
    requires r.Possible() && 0 < n <= |r.events| && r.events[0].CallSpawn? && !Works(r.events[0].outcome)
    ensures Count(IsExit, r.states[n].log) == 0
  {
    NeverReads(r, n);
    ExitOnce(r, n);
    Flags(r, n);
  }

  /** All calls in spawn() succeeded. */
  predicate Works(o: Outcome) { o.spawn == 0 && o.readOut == 0 && o.readErr == 0 }

  lemma NeverReads(r: Run, n: nat)
    requires r.Possible() && 0 < n <= |r.events| && r.events[0].CallSpawn? && !Works(r.events[0].outcome)
    ensures !r.states[n].pipeErr.reading && !r.states[n].stderrFlushed
  {
    ReadsIff(r, n);
    Reachable(r, n);
  }

  /** stderr is being read exactly if all calls in spawn() succeeded. */
  lemma {:induction false} ReadsIff(r: Run, n: nat)
    requires r.Possible() && 0 < n <= |r.events|
    ensures r.events[0].CallSpawn? && (r.states[n].pipeErr.reading <==> Works(r.events[0].outcome))
  {
    SpawnFirst(r, n);
    assert r.Moves(n - 1);
    StepReading(r.states[n - 1], r.events[n - 1]);
    if n == 1 {
    } else {
      ReadsIff(r, n - 1);
      SpawnFirst(r, n - 1);
    }
  }

  /** Which pipes an event starts to read, and which it closes. */
  lemma StepReading(c: Child, ev: Event)
    ensures var d := c.Step(ev);
            (d.called <==> c.called || ev.CallSpawn?) &&
            (!ev.CallSpawn? ==> d.pipeOut.reading == c.pipeOut.reading && d.pipeErr.reading == c.pipeErr.reading) &&
            (ev.CallSpawn? && !c.pipeErr.reading ==> (d.pipeErr.reading <==> Works(ev.outcome))) &&
            d.pipeOut.handle.closes ==
            c.pipeOut.handle.closes + Ones(ev.ReadCb? && ev.stream == Out && ev.result.Ends())
  {
    match ev
    case CallSpawn(o) => ReadingSpawn(c, o);
    case TimerCb =>
    case ExitCb(_, _) =>
    case AllocCb(_) =>
    case ReadCb(s, r) => ReadingRead(c, s, r);
  }

  lemma ReadingRead(c: Child, s: Stream, r: ReadResult)
    ensures var d := c.OnRead(s, r);
            d.called == c.called && d.started == c.started && d.pid == c.pid &&
            d.pipeOut.reading == c.pipeOut.reading && d.pipeErr.reading == c.pipeErr.reading &&
            d.pipeOut.handle.closes == c.pipeOut.handle.closes + Ones(s == Out && r.Ends())
  {
    if r.Ends() {
      if s == Out { ReadingStdoutEnd(c.Freed(Out), r.Failed?); } else { ReadingEnd(c.Freed(Err), r.Failed?); }
    }
  }

  lemma ReadingStdoutEnd(c: Child, failed: bool)
    ensures var d := c.OnStdoutEnd(failed);
            d.called == c.called && d.started == c.started && d.pid == c.pid && d.pipeErr == c.pipeErr &&
            d.pipeOut.reading == c.pipeOut.reading && d.pipeOut.handle.closes == c.pipeOut.handle.closes + 1
  {}

  lemma ReadingEnd(c: Child, failed: bool)
    ensures var d := c.OnStderrEnd(failed);
            d.called == c.called && d.started == c.started && d.pid == c.pid &&
            d.pipeOut == c.pipeOut && d.pipeErr.reading == c.pipeErr.reading
  {}

  lemma ReadingSpawn(c: Child, o: Outcome)
    ensures var d := c.OnSpawn(o);
            d.called && d.pipeOut.handle == c.pipeOut.handle &&
            (!c.pipeErr.reading ==> (d.pipeErr.reading <==> Works(o)))
  {}

  predicate IsStdout(e: Effect) { e.Emit? && e.emission.Stdout? }

  /** Some continuation from a state emits stdout. */
  ghost predicate MoreStdout(c: Child) {
    exists r: Run :: r.Legal() && r.states[0] == c && Count(IsStdout, r.states[|r.events|].log) > Count(IsStdout, c.log)
  }

  /** Once spawn() was called, and so also after "exit", stdout can still come exactly if
      it is being read and has not ended. */
  lemma MoreStdoutIff(c: Child)
    requires c.called
    ensures MoreStdout(c) <==> c.pipeOut.reading && !c.pipeOut.handle.IsClosing()
  {
    if c.pipeOut.reading && !c.pipeOut.handle.IsClosing() {
      ReadsOn(c);
    } else {
      forall r: Run | r.Legal() && r.states[0] == c
        ensures Count(IsStdout, r.states[|r.events|].log) == Count(IsStdout, c.log)
      {
        NoMoreStdout(r, |r.events|);
      }
    }
  }

  lemma ReadsOn(c: Child)
    requires c.pipeOut.reading && !c.pipeOut.handle.IsClosing()
    ensures MoreStdout(c)
  {
    var r := BufferReady(c, Out);
    var d, ev := r.states[|r.events|], ReadCb(Out, Data([0]));
    Extend(r, ev);
    StepLog(d, ev);
    CountAdd(IsStdout, c.log, Emit(Stdout([0])));
    var t := r.Then(ev);
    assert t.states[|t.events|] == d.Step(ev) && t.states[0] == c;
  }

  /** A buffer for an open pipe is there, or can be asked for. */
  lemma BufferReady(c: Child, s: Stream) returns (r: Run)
    requires c.PipeOf(s).reading && !c.PipeOf(s).handle.IsClosing()
    ensures r.Legal() && r.states[0] == c
    ensures var d := r.states[|r.events|];
            d.log == c.log && d.exited == c.exited && d.Enabled(ReadCb(s, Data([0]))) && d.Enabled(ReadCb(s, Eof))
  {
    r := Run([c], []);
    if !c.PipeOf(s).pending {
      Extend(r, AllocCb(s));
      r := r.Then(AllocCb(s));
    }
  }

  lemma {:induction false} NoMoreStdout(r: Run, n: nat)
    requires r.Legal() && n <= |r.events|
    requires var c := r.states[0]; c.called && !(c.pipeOut.reading && !c.pipeOut.handle.IsClosing())
    ensures var d := r.states[n];
            d.called && !(d.pipeOut.reading && !d.pipeOut.handle.IsClosing()) &&
            Count(IsStdout, d.log) == Count(IsStdout, r.states[0].log)
  {
    if n == 0 {
    } else {
      var d, ev := r.states[n - 1], r.events[n - 1];
      NoMoreStdout(r, n - 1);
      assert r.Moves(n - 1);
      StepReading(d, ev);
      StepLog(d, ev);
      StdoutOnlyRead(d, ev);
      CountMore(IsStdout, d.log, Effects(d, ev));
    }
  }

  lemma StdoutOnlyRead(c: Child, ev: Event)
    requires !(ev.ReadCb? && ev.stream == Out)
    ensures forall e :: e in Effects(c, ev) ==> !IsStdout(e)
  {}

  lemma {:induction false} CountMore<T>(p: T -> bool, s: seq<T>, more: seq<T>)
    requires forall x :: x in more ==> !p(x)
    ensures Count(p, s + more) == Count(p, s)
  {
    if more == [] {
      assert s + more == s;
    } else {
      CountMore(p, s, more[..|more| - 1]);
      CountAdd(p, s + more[..|more| - 1], more[|more| - 1]);
      assert s + more == s + more[..|more| - 1] + [more[|more| - 1]];
    }
  }

  // ----- whether "exit" can still come

  /** Some continuation from a state emits "exit". */
  ghost predicate MayExit(c: Child) {
    exists r: Run :: r.Legal() && r.states[0] == c && Count(IsExit, r.states[|r.events|].log) > Count(IsExit, c.log)
  }

  /** Once spawn() was called, "exit" can still come exactly if stderr is, or was, being
      read and one of the two events is still to come. */
  lemma MayExitIff(c: Child)
    requires Inv(c) && c.called
    ensures MayExit(c) <==> c.pipeErr.reading && !(c.exited && c.stderrFlushed)
  {
    if c.pipeErr.reading && !(c.exited && c.stderrFlushed) {
      GoesOn(c);
    } else {
      forall r: Run | r.Legal() && r.states[0] == c
        ensures Count(IsExit, r.states[|r.events|].log) == Count(IsExit, c.log)
      {
        NoMoreExit(r, |r.events|);
        Along(r, |r.events|);
      }
    }
  }

  lemma GoesOn(c: Child)
    requires Inv(c) && c.pipeErr.reading && !(c.exited && c.stderrFlushed)
    ensures MayExit(c)
  {
    var r := StderrOver(c);
    Along(r, |r.events|);
    if !c.exited {
      Extend(r, ExitCb(0, 0));
      r := r.Then(ExitCb(0, 0));
      Along(r, |r.events|);
    }
    assert r.states[|r.events|].exited && r.states[|r.events|].stderrFlushed;
  }

  /** stderr can end. */
  lemma StderrOver(c: Child) returns (r: Run)
    requires Inv(c) && c.pipeErr.reading
    ensures r.Legal() && r.states[0] == c
    ensures var d := r.states[|r.events|]; d.stderrFlushed && d.pipeErr.reading && d.exited == c.exited
  {
    if c.stderrFlushed {
      r := Run([c], []);
    } else {
      r := BufferReady(c, Err);
      Along(r, |r.events|);
      var d, ev := r.states[|r.events|], ReadCb(Err, Eof);
      StepFlags(d, ev);
      StepReading(d, ev);
      Extend(r, ev);
      r := r.Then(ev);
    }
  }

  /** Stderr is not being read, or both events are past. */
  predicate NoExitLeft(c: Child) {
    c.called && (!c.pipeErr.reading || (c.exited && c.stderrFlushed))
  }

  lemma NoExitLeftStep(c: Child, ev: Event)
    requires Inv(c) && c.Enabled(ev) && NoExitLeft(c)
    ensures var d := c.Step(ev); NoExitLeft(d) && (d.exited && d.stderrFlushed <==> c.exited && c.stderrFlushed)
  {
    StepReading(c, ev);
    StepFlags(c, ev);
  }

  lemma {:induction false} NoMoreExit(r: Run, n: nat)
    requires r.Legal() && n <= |r.events| && Inv(r.states[0]) && NoExitLeft(r.states[0])
    ensures var c, d := r.states[0], r.states[n];
            NoExitLeft(d) && (d.exited && d.stderrFlushed <==> c.exited && c.stderrFlushed)
  {
    if n == 0 {
    } else {
      NoMoreExit(r, n - 1);
      assert r.Moves(n - 1);
      Along(r, n - 1);
      NoExitLeftStep(r.states[n - 1], r.events[n - 1]);
    }
  }

  /** At any point of a run, "exit" can still come exactly if all calls in spawn() succeeded
      and one of the two events is still to come. */
  lemma ExitToCome(r: Run, n: nat)
    requires r.Possible() && 0 < n <= |r.events|
    ensures r.events[0].CallSpawn?
    ensures MayExit(r.states[n]) <==> Works(r.events[0].outcome) && !(r.Exited(n) && r.StderrEnded(n))
  {
    Reachable(r, n);
    Flags(r, n);
    SpawnFirst(r, n);
    ReadsIff(r, n);
    MayExitIff(r.states[n]);
  }

  /** A process that started without its stderr being read runs and exits, and "exit" has
      not come and never will. */
  lemma ExitNeverTold(timeout: nat, pid: int, o: Outcome, status: int, signal: int)
    requires o.spawn == 0 && !Works(o)
    ensures var r := Run([Fresh(timeout, pid)], []).Then(CallSpawn(o)).Then(ExitCb(status, signal));
            r.Possible() && r.states[2].started && r.states[2].exited &&
            Count(IsExit, r.states[2].log) == 0 && !MayExit(r.states[2])
  {
    var c, e1, e2 := Fresh(timeout, pid), CallSpawn(o), ExitCb(status, signal);
    var r0 := Run([c], []);
    var r1 := r0.Then(e1);
    Extend(r0, e1);
    Extend(r1, e2);
    var r := r1.Then(e2);
    assert r.events[0] == e1 && r.states[2] == c.OnSpawn(o).OnExit(status, signal);
    NoExitWithoutStderr(r, 2);
    NeverReads(r, 2);
    Reachable(r, 2);
    SpawnFirst(r, 2);
    MayExitIff(r.states[2]);
  }

  // ----- when a process can no longer call back

  predicate Shut(p: Pipe) { !p.reading || p.handle.IsClosing() }

  predicate Silent(c: Child) {
    && (!c.timer.inited || c.timer.IsClosing()) && (!c.started || c.process.IsClosing())
    && Shut(c.pipeOut) && Shut(c.pipeErr)
  }

  /** Silent means that the loop runs none of its callbacks. */
  lemma SilentIff(c: Child)
    ensures Silent(c) <==> forall ev :: c.Enabled(ev) ==> ev.CallSpawn?
  {
    if forall ev :: c.Enabled(ev) ==> ev.CallSpawn? {
      assert !c.Enabled(TimerCb) && !c.Enabled(ExitCb(0, 0)) && !c.Enabled(AllocCb(Out)) && !c.Enabled(AllocCb(Err));
      assert !c.Enabled(ReadCb(Out, Eof)) && !c.Enabled(ReadCb(Err, Eof));
    }
  }

  // ----- what is left of a child that is finished

  /** What spawn() has set up. */
  predicate SetUp(c: Child, timeout: nat, o: Outcome) {
    && (c.timer.inited <==> timeout > 0) && (c.started <==> o.spawn == 0)
    && (c.pipeOut.reading <==> o.spawn == 0 && o.readOut == 0) && (c.pipeErr.reading <==> Works(o))
  }

  lemma SpawnSetsUp(timeout: nat, pid: int, o: Outcome)
    ensures SetUp(Fresh(timeout, pid).OnSpawn(o), timeout, o)
  {}

  lemma SetUpStays(c: Child, ev: Event, timeout: nat, o: Outcome)
    requires SetUp(c, timeout, o) && !ev.CallSpawn?
    ensures SetUp(c.Step(ev), timeout, o)
  {
    if ev.ReadCb? { ReadSetUp(c, ev.stream, ev.result); }
  }

  lemma ReadSetUp(c: Child, s: Stream, r: ReadResult)
    ensures var d := c.OnRead(s, r);
            d.timer == c.timer && d.started == c.started &&
            d.pipeOut.reading == c.pipeOut.reading && d.pipeErr.reading == c.pipeErr.reading
  {
    ReadingRead(c, s, r);
    ReadTimer(c, s, r);
  }

  lemma ReadTimer(c: Child, s: Stream, r: ReadResult)
    ensures c.OnRead(s, r).timer == c.timer
  {
    if r.Ends() && s == Err { EndTimer(c.Freed(Err), r.Failed?); }
  }

  lemma EndTimer(c: Child, failed: bool)
    ensures c.OnStderrEnd(failed).timer == c.timer
  {}

  lemma {:induction false} AlwaysSetUp(r: Run, n: nat)
    requires r.Possible() && 0 < n <= |r.events|
    ensures r.events[0].CallSpawn? && SetUp(r.states[n], r.states[0].timeout, r.events[0].outcome)
  {
    SpawnFirst(r, n);
    assert r.Moves(n - 1);
    if n == 1 {
      SpawnSetsUp(r.states[0].timeout, r.states[0].pid, r.events[0].outcome);
    } else {
      AlwaysSetUp(r, n - 1);
      SpawnFirst(r, n - 1);
      SetUpStays(r.states[n - 1], r.events[n - 1], r.states[0].timeout, r.events[0].outcome);
    }
  }

  /** When no callback is left, all buffers have been freed, "exit" was emitted once or, if
      a call in spawn() failed, never; and closed, once, are exactly: the timer if there was
      a timeout, the process if it started, and each pipe of which the reading was started.
      A pipe that could not be read is never closed, nor is the process of a failed
      uv_spawn. */
  lemma Finished(r: Run, n: nat)
    requires r.Possible() && 0 < n <= |r.events| && Silent(r.states[n])
    ensures r.events[0].CallSpawn?
    ensures var c, o := r.states[n], r.events[0].outcome;
            c.allocs == c.frees && Count(IsExit, c.log) == Ones(Works(o)) &&
            c.timer.closes == Ones(r.states[0].timeout > 0) && c.process.closes == Ones(o.spawn == 0) &&
            c.pipeOut.handle.closes == Ones(o.spawn == 0 && o.readOut == 0) &&
            c.pipeErr.handle.closes == Ones(Works(o))
  {
    Reachable(r, n);
    AlwaysSetUp(r, n);
  }

  // ----- signals after the exit callback

  predicate IsSignal(e: Effect) { e.Kill? }

  predicate IsFailedRead(ev: Event) { ev.ReadCb? && ev.result.Failed? }

  lemma {:induction false} CountAppend<T>(p: T -> bool, s: seq<T>, t: seq<T>)
    ensures Count(p, s + t) == Count(p, s) + Count(p, t)
  {
    if t == [] {
      assert s + t == s;
    } else {
      var was, x := t[..|t| - 1], t[|t| - 1];
      assert t == was + [x] && s + t == s + was + [x];
      CountAppend(p, s, was);
      CountAdd(p, s + was, x);
      CountAdd(p, was, x);
    }
  }

  lemma CountFew<T>(p: T -> bool, e: T, f: T)
    ensures Count(p, [e]) == Ones(p(e)) && Count(p, [e] + [f]) == Ones(p(e)) + Ones(p(f))
  {
    assert [e] == [] + [e];
    CountAdd(p, [], e);
    CountAdd(p, [e], f);
  }

  /** The effects that a read can have. */
  lemma ReadEffects(c: Child, s: Stream, r: ReadResult) returns (e: Effect)
    ensures e.Emit?
    ensures var said := Effects(c, ReadCb(s, r));
            if r.Failed? then said == [Kill(SIGTERM)] || said == [Kill(SIGTERM)] + [e]
            else said == [] || said == [e]
  {
    if r.Data? {
      e := Emit(if s == Out then Stdout(r.bytes) else Stderr(r.bytes));
    } else {
      e := Emit(Exit(c.exitStatus, c.termSignal));
      assert [Kill(SIGTERM)] + [] == [Kill(SIGTERM)];
    }
  }

  lemma SignalsOf(c: Child, ev: Event)
    requires ev.AllocCb? || ev.ReadCb?
    ensures Count(IsSignal, Effects(c, ev)) == Ones(IsFailedRead(ev))
    ensures forall e :: e in Effects(c, ev) && e.Kill? ==> e == Kill(SIGTERM)
  {
    if ev.ReadCb? {
      var e := ReadEffects(c, ev.stream, ev.result);
      CountFew(IsSignal, Kill(SIGTERM), e);
      CountFew(IsSignal, e, e);
    }
  }

  /** After the exit callback the process is sent one SIGTERM for every read that fails,
      though it has been reaped, and no other signal. */
  lemma {:induction false} SignalsAfterExit(r: Run, i: nat, n: nat)
    requires r.Possible() && i < n <= |r.events| && r.events[i].ExitCb?
    ensures Signalled(r.states[i + 1].log, r.states[n].log, r.events[i + 1..n])
  {
    if n == i + 1 {
    } else {
      var c, ev := r.states[n - 1], r.events[n - 1];
      assert r.events[i + 1..n] == r.events[i + 1..n - 1] + [ev];
      SignalsAfterExit(r, i, n - 1);
      assert r.Moves(n - 1);
      SpawnFirst(r, n - 1);
      AfterExitCallback(r, i, n - 1);
      SignalsGoOn(c, ev, r.states[i + 1].log, r.events[i + 1..n - 1]);
    }
  }

  /** What came after `was`, during `evs`, are one SIGTERM for each failed read and no other
      signals. */
  ghost predicate Signalled(was: seq<Effect>, log: seq<Effect>, evs: seq<Event>) {
    was <= log && Count(IsSignal, log) == Count(IsSignal, was) + Count(IsFailedRead, evs) &&
    forall k :: |was| <= k < |log| && log[k].Kill? ==> log[k] == Kill(SIGTERM)
  }

  lemma SignalsGoOn(c: Child, ev: Event, was: seq<Effect>, evs: seq<Event>)
    requires (ev.AllocCb? || ev.ReadCb?) && Signalled(was, c.log, evs)
    ensures Signalled(was, c.Step(ev).log, evs + [ev])
  {
    StepLog(c, ev);
    SignalsOf(c, ev);
    MoreSignals(was, c.log, evs, Effects(c, ev), ev);
  }

  lemma MoreSignals(was: seq<Effect>, log: seq<Effect>, evs: seq<Event>, more: seq<Effect>, ev: Event)
    requires Signalled(was, log, evs) && Count(IsSignal, more) == Ones(IsFailedRead(ev))
    requires forall e :: e in more && e.Kill? ==> e == Kill(SIGTERM)
    ensures Signalled(was, log + more, evs + [ev])
  {
    CountAppend(IsSignal, log, more);
    CountAdd(IsFailedRead, evs, ev);
    forall k | |log| <= k < |log + more| && (log + more)[k].Kill? ensures (log + more)[k] == Kill(SIGTERM) {
      assert (log + more)[k] == more[k - |log|];
    }
  }

  // ----- accounts of a whole run

  /** What spawn() itself makes known: nothing, or the kill of a child that could not be
      listened to. */
  lemma SpawnLog(r: Run)
    requires r.Possible() && r.events != []
    ensures r.events[0].CallSpawn?
    ensures var o := r.events[0].outcome;
            r.states[1].log == if o.spawn == 0 && (o.readOut != 0 || o.readErr != 0) then [Kill(9)] else []
  {
    SpawnFirst(r, 1);
    assert r.Moves(0);
  }

  /** The timer callback tells of the timeout and then kills, whatever has started. */
  lemma TimerLog(r: Run, n: nat)
    requires r.Possible() && n < |r.events| && r.events[n].TimerCb?
    ensures r.states[n + 1].log == r.states[n].log + [Emit(Timeout), Kill(9)]
  {
    assert r.Moves(n);
    StepLog(r.states[n], r.events[n]);
  }

  predicate IsSigkill(e: Effect) { e == Kill(9) }

  predicate IsSigterm(e: Effect) { e == Kill(15) }

  predicate IsTimer(ev: Event) { ev.TimerCb? }

  predicate IsExitCb(ev: Event) { ev.ExitCb? }

  predicate IsAlloc(ev: Event) { ev.AllocCb? }

  predicate IsRead(ev: Event) { ev.ReadCb? }

  predicate IsStdoutEnd(ev: Event) { ev.ReadCb? && ev.stream == Out && (ev.result.Eof? || ev.result.Failed?) }

  predicate IsUnheard(ev: Event) {
    ev.CallSpawn? && ev.outcome.spawn == 0 && (ev.outcome.readOut != 0 || ev.outcome.readErr != 0)
  }

  /** The signals and timeouts of a log are those that the events called for. */
  ghost predicate Signals(log: seq<Effect>, evs: seq<Event>) {
    && Count(IsSigkill, log) == Count(IsTimer, evs) + Count(IsUnheard, evs)
    && Count(IsSigterm, log) == Count(IsFailedRead, evs)
    && Count(IsSignal, log) == Count(IsSigkill, log) + Count(IsSigterm, log)
    && Count(IsTimeout, log) == Count(IsTimer, evs)
  }

  /** The same for the effects of one event. */
  lemma EffectsBalance(c: Child, ev: Event)
    ensures var more := Effects(c, ev);
            Count(IsSigkill, more) == Ones(IsTimer(ev)) + Ones(IsUnheard(ev)) &&
            Count(IsSigterm, more) == Ones(IsFailedRead(ev)) &&
            Count(IsSignal, more) == Count(IsSigkill, more) + Count(IsSigterm, more) &&
            Count(IsTimeout, more) == Ones(IsTimer(ev))
  {
    match ev
    case CallSpawn(_) => FewEffects(Kill(SIGKILL), Kill(SIGKILL));
    case TimerCb =>
      FewEffects(Emit(Timeout), Kill(SIGKILL));
      assert [Emit(Timeout), Kill(SIGKILL)] == [Emit(Timeout)] + [Kill(SIGKILL)];
    case ExitCb(status, signal) => FewEffects(Emit(Exit(status, signal)), Emit(Exit(status, signal)));
    case AllocCb(_) =>
    case ReadCb(st, r) =>
      var e := ReadEffects(c, st, r);
      FewEffects(Kill(SIGTERM), e);
      FewEffects(e, e);
  }

  lemma FewEffects(e: Effect, f: Effect)
    ensures Count(IsSigkill, [e]) == Ones(IsSigkill(e)) && Count(IsSigterm, [e]) == Ones(IsSigterm(e))
    ensures Count(IsSignal, [e]) == Ones(IsSignal(e)) && Count(IsTimeout, [e]) == Ones(IsTimeout(e))
    ensures Count(IsSigkill, [e] + [f]) == Ones(IsSigkill(e)) + Ones(IsSigkill(f))
    ensures Count(IsSigterm, [e] + [f]) == Ones(IsSigterm(e)) + Ones(IsSigterm(f))
    ensures Count(IsSignal, [e] + [f]) == Ones(IsSignal(e)) + Ones(IsSignal(f))
    ensures Count(IsTimeout, [e] + [f]) == Ones(IsTimeout(e)) + Ones(IsTimeout(f))
  {
    CountFew(IsSigkill, e, f);
    CountFew(IsSigterm, e, f);
    CountFew(IsSignal, e, f);
    CountFew(IsTimeout, e, f);
  }

  lemma SignalsMore(log: seq<Effect>, evs: seq<Event>, c: Child, ev: Event)
    requires Signals(log, evs)
    ensures Signals(log + Effects(c, ev), evs + [ev])
  {
    EffectsBalance(c, ev);
    CountAppend(IsSigkill, log, Effects(c, ev));
    CountAppend(IsSigterm, log, Effects(c, ev));
    CountAppend(IsSignal, log, Effects(c, ev));
    CountAppend(IsTimeout, log, Effects(c, ev));
    CountAdd(IsTimer, evs, ev);
    CountAdd(IsUnheard, evs, ev);
    CountAdd(IsFailedRead, evs, ev);
  }

  /** On every run: one SIGKILL for each run of the timer callback and for a child that could
      not be listened to, one SIGTERM for each failed read, no other signal; and one
      "timeout" for each run of the timer callback. */
  lemma {:induction false} SignalsSent(r: Run, n: nat)
    requires r.Possible() && n <= |r.events|
    ensures Signals(r.states[n].log, r.events[..n])
  {
    if n == 0 {
    } else {
      assert r.events[..n] == r.events[..n - 1] + [r.events[n - 1]];
      SignalsSent(r, n - 1);
      assert r.Moves(n - 1);
      StepLog(r.states[n - 1], r.events[n - 1]);
      SignalsMore(r.states[n - 1].log, r.events[..n - 1], r.states[n - 1], r.events[n - 1]);
    }
  }

  /** What a state owes to the events before it: handles closed, buffers handed out and
      freed. */
  ghost predicate Accounts(c: Child, evs: seq<Event>, timeout: nat) {
    && c.process.closes == Count(IsExitCb, evs)
    && c.pipeOut.handle.closes == Count(IsStdoutEnd, evs) && c.pipeErr.handle.closes == Count(IsStderrEnd, evs)
    && c.timer.closes == Ones(timeout > 0 && Count(IsTimer, evs) + Count(IsExitCb, evs) > 0)
    && c.allocs == Count(IsAlloc, evs) && c.frees == Count(IsRead, evs)
  }

  /** The same for one event. */
  ghost predicate Booked(c: Child, ev: Event, d: Child) {
    && d.process.closes == c.process.closes + Ones(IsExitCb(ev))
    && d.pipeOut.handle.closes == c.pipeOut.handle.closes + Ones(IsStdoutEnd(ev))
    && d.pipeErr.handle.closes == c.pipeErr.handle.closes + Ones(IsStderrEnd(ev))
    && d.allocs == c.allocs + Ones(IsAlloc(ev)) && d.frees == c.frees + Ones(IsRead(ev))
  }

  lemma StepBooks(c: Child, ev: Event)
    ensures Booked(c, ev, c.Step(ev))
  {
    match ev
    case CallSpawn(o) => SpawnBooks(c, o);
    case TimerCb =>
    case ExitCb(_, _) =>
    case AllocCb(_) =>
    case ReadCb(st, r) => ReadBooks(c, st, r);
  }

  lemma SpawnBooks(c: Child, o: Outcome)
    ensures Booked(c, CallSpawn(o), c.OnSpawn(o))
  {
    var timer := c.timer.(inited := c.timer.inited || c.timeout > 0);
    StartBooks(c.(called := true, timer := timer, started := true, pid := o.pid), o);
  }

  lemma StartBooks(c: Child, o: Outcome)
    ensures Booked(c, CallSpawn(o), c.StartReading(o))
  {}

  lemma ReadBooks(c: Child, st: Stream, r: ReadResult)
    ensures Booked(c, ReadCb(st, r), c.OnRead(st, r))
  {
    if r.Ends() {
      if st == Out { StdoutEndBooks(c.Freed(Out), r.Failed?); } else { StderrEndBooks(c.Freed(Err), r.Failed?); }
    }
  }

  lemma StdoutEndBooks(c: Child, failed: bool)
    ensures var d := c.OnStdoutEnd(failed);
            d.process == c.process && d.pipeErr == c.pipeErr && d.allocs == c.allocs && d.frees == c.frees &&
            d.pipeOut.handle.closes == c.pipeOut.handle.closes + 1
  {}

  lemma StderrEndBooks(c: Child, failed: bool)
    ensures var d := c.OnStderrEnd(failed);
            d.process == c.process && d.pipeOut == c.pipeOut && d.allocs == c.allocs && d.frees == c.frees &&
            d.pipeErr.handle.closes == c.pipeErr.handle.closes + 1
  {}

  /** On every run: the process was closed once for each exit callback, each pipe once for
      each end or failure of its stream, the timer, if there is a timeout, once it fired or
      the process exited; and one buffer was handed out for each allocation callback and
      freed for each read callback. */
  lemma {:induction false} Ledger(r: Run, n: nat)
    requires r.Possible() && n <= |r.events|
    ensures Accounts(r.states[n], r.events[..n], r.states[0].timeout)
  {
    if n == 0 {
    } else {
      var c, ev, evs := r.states[n - 1], r.events[n - 1], r.events[..n - 1];
      assert r.events[..n] == evs + [ev];
      Ledger(r, n - 1);
      assert r.Moves(n - 1);
      StepBooks(c, ev);
      TimerBooks(r, n);
      CountAdd(IsExitCb, evs, ev);
      CountAdd(IsStdoutEnd, evs, ev);
      CountAdd(IsStderrEnd, evs, ev);
      CountAdd(IsTimer, evs, ev);
      CountAdd(IsAlloc, evs, ev);
      CountAdd(IsRead, evs, ev);
    }
  }

  /** What one event does to the timer. */
  lemma TimerBooks(r: Run, n: nat)
    requires r.Possible() && 0 < n <= |r.events|
    ensures var c, ev, d := r.states[n - 1], r.events[n - 1], r.states[n];
            d.timer.closes == if ev.TimerCb? || (ev.ExitCb? && r.states[0].timeout > 0) then 1 else c.timer.closes
    ensures r.events[n - 1].TimerCb? ==> r.states[0].timeout > 0
  {
    var c, ev := r.states[n - 1], r.events[n - 1];
    assert r.Moves(n - 1);
    Reachable(r, n - 1);
    StepFlags(c, ev);
    if n > 1 { AlwaysSetUp(r, n - 1); }
  }
}
