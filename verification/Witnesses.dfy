/** Concrete runs of the system, which show what can happen. */
module Witnesses {
  import opened Spawn
  import opened SpawnRuns
  import opened Tables
  import opened System
  import opened Delivery

  /** Some run, on which no pid of a busy process is given out, ends in `s`. */
  ghost predicate Reached(s: Sys) {
    exists acts :: Possible(acts) && PidsUnused(acts) && StateAfter(acts) == s
  }

  lemma Go(s: Sys, a: Act)
    requires Reached(s) && Enabled(s, a) && Unused(s, a)
    ensures Reached(Step(s, a))
  {
    var acts :| Possible(acts) && PidsUnused(acts) && StateAfter(acts) == s;
    Snoc(acts, a);
  }

  lemma Begin()
    ensures Reached(START)
  {
    assert Possible([]) && PidsUnused([]) && StateAfter([]) == START;
  }

  /** The state in which the child of process `i` is `c` instead. */
  function WithChild(s: Sys, i: nat, c: Child): Sys
    requires i in s.procs
  {
    s.(procs := s.procs[i := s.procs[i].(child := c)])
  }

  /** A callback without effects. */
  lemma Quietly(s: Sys, i: nat, ev: Event)
    requires Reached(s) && Enabled(s, Callback(i, ev)) && Effects(s.procs[i].child, ev) == []
    ensures Reached(WithChild(s, i, s.procs[i].child.Step(ev)))
  {
    Go(s, Callback(i, ev));
  }

  const PID := 7

  const WORKS := Outcome(0, PID, 0, 0)

  /** Process `i`, new in a system of others, after its native spawn. */
  lemma Spawned(s: Sys, i: nat) returns (t: Sys)
    requires Reached(s) && i !in s.procs && Unused(s, Spawn(i, WORKS))
    ensures Reached(t)
    ensures t == s.(procs := s.procs[i := Proc(Child0(), Returned, Never, Never)])
  {
    var a, b := Create(i, 0, 0), Spawn(i, WORKS);
    Go(s, a);
    t := Step(s, a);
    Go(t, b);
    t := Step(t, b);
    assert t.procs == s.procs[i := Proc(Child0(), Returned, Never, Never)];
  }

  /** A pipe of process `i` ends without having carried anything. */
  lemma Ended(s: Sys, i: nat, st: Stream) returns (t: Sys)
    requires Reached(s) && i in s.procs && s.turn == Free
    requires var c := s.procs[i].child; c.Enabled(AllocCb(st)) && !c.exited
    ensures Reached(t) && t == WithChild(s, i, s.procs[i].child.OnAlloc(st).OnRead(st, Eof))
  {
    var c := s.procs[i].child;
    Quietly(s, i, AllocCb(st));
    t := WithChild(s, i, c.OnAlloc(st));
    Quietly(t, i, ReadCb(st, Eof));
    Twice(s, i, c.OnAlloc(st), c.OnAlloc(st).OnRead(st, Eof));
    t := WithChild(t, i, c.OnAlloc(st).OnRead(st, Eof));
  }

  lemma Twice(s: Sys, i: nat, c: Child, d: Child)
    requires i in s.procs
    ensures WithChild(WithChild(s, i, c), i, d) == WithChild(s, i, d)
  {
    assert WithChild(WithChild(s, i, c), i, d).procs == WithChild(s, i, d).procs;
  }

  /** The exit step of process `i`, both halves. */
  lemma Left(s: Sys, i: nat) returns (t: Sys)
    requires Reached(s) && i in s.procs && s.turn == Free
    requires var c := s.procs[i].child; c.Enabled(ExitCb(0, 0)) && c.stderrFlushed
    ensures Reached(t) && t.turn == Free && t.procs.Keys == s.procs.Keys
    ensures var p := s.procs[i]; t.procs[i] == Proc(p.child.OnExit(0, 0), p.pc, At(p.pc), At(p.pc))
    ensures var pid := s.procs[i].child.pid;
            t.java.table == s.java.table - {pid} && t.native.table == s.native.table - {pid} &&
            (pid !in s.java.table ==> t.java.calls == s.java.calls)
  {
    var p := s.procs[i];
    LeavesIff(p.child, ExitCb(0, 0));
    HeardTable(s.java, p.child.pid, Effects(p.child, ExitCb(0, 0)));
    if p.child.pid !in s.java.table { Unheard(s.java, p.child.pid, Effects(p.child, ExitCb(0, 0))); }
    Go(s, Callback(i, ExitCb(0, 0)));
    var u := Step(s, Callback(i, ExitCb(0, 0)));
    assert u.procs[i] == Proc(p.child.OnExit(0, 0), p.pc, At(p.pc), p.erased);
    Go(u, Erase);
    t := Step(u, Erase);
  }

  /** Both inserts of process `i`. */
  lemma Put(s: Sys, i: nat) returns (t: Sys)
    requires Reached(s) && i in s.procs && s.procs[i].pc == Returned
    ensures Reached(t) && t.turn == s.turn && t.procs == s.procs[i := s.procs[i].(pc := InJava)]
    ensures t.java == s.java.Register(s.procs[i].child.pid, i) && t.native == s.native.Put(s.procs[i].child.pid, i)
  {
    Go(s, PutNative(i));
    t := Step(s, PutNative(i));
    Go(t, PutJava(i));
    t := Step(t, PutJava(i));
  }

  /** The child of a started process; after its stderr has ended; after stdout has, too. */
  function Child0(): Child { Fresh(0, 0).OnSpawn(WORKS) }

  function Child1(): Child { Child0().OnAlloc(Err).OnRead(Err, Eof) }

  function Child2(): Child { Child1().OnAlloc(Out).OnRead(Out, Eof) }

  lemma Stage0()
    ensures var c := Child0();
            c.pid == PID && c.started && !c.exited && !c.stderrFlushed && c.timeout == 0 && !Silent(c)
    ensures Child0().Enabled(AllocCb(Err)) && Child0().Enabled(AllocCb(Out))
  {}

  lemma Stage1()
    ensures var c := Child1();
            c.pid == PID && c.started && !c.exited && c.stderrFlushed && c.Enabled(ExitCb(0, 0)) &&
            c.Enabled(AllocCb(Out))
  {}

  lemma Stage2()
    ensures var c := Child2(); c.pid == PID && c.started && !c.exited && c.stderrFlushed && c.Enabled(ExitCb(0, 0))
    ensures var d := Child2().OnExit(0, 0); d.pid == PID && d.started && Silent(d)
  {}

  /** Process 0 exited before its thread got to the inserts. */
  lemma Overtaken() returns (s: Sys)
    ensures Reached(s) && s.turn == Free && s.procs.Keys == {0} && s.java.calls == []
    ensures s.procs[0] == Proc(Child2().OnExit(0, 0), InJava, At(Returned), At(Returned))
    ensures s.java.table == map[PID := 0] && s.native.table == map[PID := 0]
  {
    Begin();
    s := Spawned(START, 0);
    s := HeardOut(s);
    s := Left(s, 0);
    s := Put(s, 0);
  }

  /** Both pipes of process 0 end. */
  lemma HeardOut(s: Sys) returns (t: Sys)
    requires Reached(s) && 0 in s.procs && s.turn == Free && s.procs[0].child == Child0()
    ensures Reached(t) && t == WithChild(s, 0, Child2())
    ensures var c := Child2(); c.Enabled(ExitCb(0, 0)) && c.stderrFlushed && c.pid == PID
  {
    Stage0();
    t := Ended(s, 0, Err);
    Stage1();
    Twice(s, 0, Child1(), Child2());
    t := Ended(t, 0, Out);
    Stage2();
  }

  /** Such a process is in both tables, quiescent as all is; it takes no step any more, and
      its entries are stale. */
  lemma ExitMayComeFirst()
    ensures exists s :: Reached(s) && Quiescent(s) && 0 in s.procs && Gone(s.procs[0]) && Done(s.procs[0]) &&
              InJavaTable(s, 0) && InNativeTable(s, 0) && StaleJava(s.procs[0]) && StaleNative(s.procs[0])
  {
    var s := Overtaken();
    Stage2();
    assert Quiescent(s) && InJavaTable(s, 0) && InNativeTable(s, 0);
  }

  /** Then its pid comes back, as it may, and process 1 asks for its first buffer. */
  lemma PidTaken() returns (s: Sys)
    ensures Reached(s) && s.turn == Free && s.procs.Keys == {0, 1} && s.java.calls == []
    ensures s.procs[0] == Proc(Child2().OnExit(0, 0), InJava, At(Returned), At(Returned))
    ensures s.procs[1] == Proc(Child0().OnAlloc(Err), Returned, Never, Never) && s.procs[1].child.pid == PID
    ensures s.java.table == map[PID := 0] && s.native.table == map[PID := 0]
  {
    s := Overtaken();
    Stage2();
    assert Unused(s, Spawn(1, WORKS)) by { assert Done(s.procs[0]); }
    s := Spawned(s, 1);
    Stage0();
    Quietly(s, 1, AllocCb(Err));
    s := WithChild(s, 1, Child0().OnAlloc(Err));
  }

  /** What the new process writes is told to the listeners of the finished one. */
  lemma ChunkGoesAstray(bytes: seq<byte>)
    requires bytes != []
    ensures exists s ::
              var a := Callback(1, ReadCb(Err, Data(bytes)));
              Reached(s) && 0 in s.procs && Done(s.procs[0]) && Gone(s.procs[0]) && 1 in s.procs && Busy(s.procs[1]) &&
              Enabled(s, a) && Step(s, a).java.calls == [Call(0, Stderr(bytes))]
  {
    var s := PidTaken();
    Stage0();
    Stage2();
    Chunked(bytes);
    Astray(s, bytes);
    assert Done(s.procs[0]) && Busy(s.procs[1]);
  }

  lemma Astray(s: Sys, bytes: seq<byte>)
    requires 1 in s.procs && s.procs[1].child == Child0().OnAlloc(Err) && s.turn == Free && bytes != []
    requires s.java.calls == [] && s.java.table == map[PID := 0]
    ensures var a := Callback(1, ReadCb(Err, Data(bytes)));
            Enabled(s, a) && Step(s, a).java.calls == [Call(0, Stderr(bytes))]
  {
    Chunked(bytes);
    var more := CallsMade(s, 1, ReadCb(Err, Data(bytes)));
    ToldOne(0, Emit(Stderr(bytes)), Err);
    assert s.java.calls + more == more;
  }

  lemma Chunked(bytes: seq<byte>)
    requires bytes != []
    ensures var c := Child0().OnAlloc(Err);
            c.Enabled(ReadCb(Err, Data(bytes))) && c.pid == PID && c.started && !Silent(c)
    ensures Effects(Child0().OnAlloc(Err), ReadCb(Err, Data(bytes))) == [Emit(Stderr(bytes))]
  {}

  /** Only its inserts put an end to that: the stale entries are overwritten. */
  lemma EntryTakenOver()
    ensures exists s :: Reached(s) && 0 in s.procs && StaleJava(s.procs[0]) && StaleNative(s.procs[0]) &&
              !InJavaTable(s, 0) && !InNativeTable(s, 0) && InJavaTable(s, 1) && InNativeTable(s, 1)
  {
    var s := PidTaken();
    var t := Put(s, 1);
    TakenOver(s, t);
  }

  lemma TakenOver(s: Sys, t: Sys)
    requires 0 in s.procs && 1 in s.procs && t.procs == s.procs[1 := s.procs[1].(pc := InJava)]
    requires s.procs[0] == Proc(Child2().OnExit(0, 0), InJava, At(Returned), At(Returned))
    requires s.procs[1].child == Child0().OnAlloc(Err)
    requires t.java == s.java.Register(PID, 1) && t.native == s.native.Put(PID, 1)
    ensures StaleJava(t.procs[0]) && StaleNative(t.procs[0])
    ensures !InJavaTable(t, 0) && !InNativeTable(t, 0) && InJavaTable(t, 1) && InNativeTable(t, 1)
  {
    Stage2();
    Chunked([0]);
  }

  /** A process in both tables, still running. */
  lemma Running() returns (s: Sys)
    ensures Reached(s) && s.turn == Free
    ensures s.procs == map[0 := Proc(Child0(), InJava, Never, Never)]
    ensures s.java == Java(map[PID := 0], []) && s.native == Native(map[PID := 0], [])
  {
    Begin();
    s := Spawned(START, 0);
    s := Put(s, 0);
  }

  /** A process that never started calls the timeout listener of another one, which is
      running and has no timeout, because its unset pid field holds the same number. */
  lemma TimeoutGoesAstray()
    ensures exists s ::
              Reached(s) && 0 in s.procs && Busy(s.procs[0]) && !s.procs[0].child.exited &&
              s.procs[0].child.timeout == 0 &&
              1 in s.procs && !s.procs[1].child.started && Enabled(s, Callback(1, TimerCb)) &&
              Step(s, Callback(1, TimerCb)).java.calls == s.java.calls + [Call(0, Timeout)]
  {
    var s := Running();
    var failed := Outcome(-1, PID, 0, 0);
    var a, b := Create(1, 5, PID), Spawn(1, failed);
    Go(s, a);
    var t := Step(s, a);
    Stage0();
    Go(t, b);
    var u := Step(t, b);
    assert u.procs[1].child == Fresh(5, PID).OnSpawn(failed) && u.procs[0] == s.procs[0];
    HeardTimeout(u.java, PID);
    assert Busy(u.procs[0]) && Enabled(u, Callback(1, TimerCb));
  }

  lemma HeardTimeout(j: Java, pid: int)
    requires pid in j.table
    ensures Heard(j, pid, [Emit(Timeout), Kill(SIGKILL)]) == j.Notify(pid, Timeout)
  {
    var e, k := Emit(Timeout), Kill(SIGKILL);
    assert [e, k][..1] == [e] && [e][..0] == [];
    assert Heard(j, pid, [e]) == Heard(j, pid, []).Notify(pid, Timeout);
    assert Heard(j, pid, [e, k]) == Heard(j, pid, [e]);
  }

  /** A process that ran, was heard out and left both tables. */
  lemma RanOut() returns (s: Sys)
    ensures Reached(s) && s.turn == Free && s.procs.Keys == {0}
    ensures s.procs[0] == Proc(Child2().OnExit(0, 0), InJava, At(InJava), At(InJava))
  {
    s := Running();
    s := HeardOut(s);
    s := Left(s, 0);
  }

  /** The pid of a process that is over may come back: two processes, the same pid. */
  lemma PidMayReturn()
    ensures exists s ::
              Reached(s) && 0 in s.procs && 1 in s.procs && s.procs[0].child.started && s.procs[1].child.started &&
              s.procs[0].child.pid == s.procs[1].child.pid && Over(s.procs[0]) && Live(s.procs[1])
  {
    var s := RanOut();
    Stage0();
    Stage2();
    assert Over(s.procs[0]);
    s := Spawned(s, 1);
    assert Live(s.procs[1]);
  }
}
