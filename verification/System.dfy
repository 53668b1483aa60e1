/** Any number of processes, the spawning threads, the loop thread and both tables, as a
    transition system. */
module System {
  import opened Spawn
  import opened SpawnRuns
  import opened Tables

  /** How far the thread that spawns a process has come: before a successful native
      spawn, after it, after the native insert, after the Java insert. */
  datatype Pc = Idle | Returned | InNative | InJava {
    function Rank(): nat { if Idle? then 0 else if Returned? then 1 else if InNative? then 2 else 3 }
  }

  /** Whether something has happened, and where the spawning thread was then. */
  datatype When = Never | At(pc: Pc)

  /** A process, with the moments of its exit step and of its native erase. */
  datatype Proc = Proc(child: Child, pc: Pc, left: When, erased: When)

  datatype Turn = Free | Erasing(proc: nat)

  /** `turn` is Erasing(i) between the Java and the native half of the exit listener of
      process i; the loop thread does nothing else then. */
  datatype Sys = Sys(procs: map<nat, Proc>, native: Native, java: Java, turn: Turn)

  datatype Act =
    | Create(proc: nat, timeout: nat, junk: int)
    | Spawn(proc: nat, outcome: Outcome)
    | PutNative(proc: nat)
    | PutJava(proc: nat)
    | Callback(proc: nat, event: Event)
    | Erase
    | Signal(pid: int, signal: int)

  const START := Sys(map[], Native(map[], []), Java(map[], []), Free)

  /** The listeners' share of a callback. */
  function Heard(j: Java, pid: int, said: seq<Effect>): Java {
    if said == [] then j
    else
      var was, e := Heard(j, pid, said[..|said| - 1]), said[|said| - 1];
      if e.Kill? then was
      else if e.emission.Exit? then was.Leave(pid, e.emission)
      else was.Notify(pid, e.emission)
  }

  predicate Leaves(said: seq<Effect>) { exists k :: 0 <= k < |said| && IsExit(said[k]) }

  /** libuv reports errors as negative numbers and gives out positive pids. */
  predicate Sane(o: Outcome) { o.spawn <= 0 && o.readOut <= 0 && o.readErr <= 0 && o.pid > 0 }

  predicate Enabled(s: Sys, a: Act) {
    match a
    case Create(i, _, _) => i !in s.procs
    case Spawn(i, o) => i in s.procs && s.procs[i].child.Enabled(CallSpawn(o)) && Sane(o)
    case PutNative(i) => i in s.procs && s.procs[i].pc == Returned
    case PutJava(i) => i in s.procs && s.procs[i].pc == InNative
    case Callback(i, ev) => i in s.procs && s.turn.Free? && !ev.CallSpawn? && s.procs[i].child.Enabled(ev)
    case Erase => s.turn.Erasing? && s.turn.proc in s.procs
    case Signal(_, _) => true
  }

  function Step(s: Sys, a: Act): Sys
    requires Enabled(s, a)
  {
    match a
    case Create(i, timeout, junk) => s.(procs := s.procs[i := Proc(Fresh(timeout, junk), Idle, Never, Never)])
    case Spawn(i, o) =>
      var p := s.procs[i];
      s.(procs := s.procs[i := p.(child := p.child.OnSpawn(o), pc := if Works(o) then Returned else Idle)])
    case PutNative(i) =>
      var p := s.procs[i];
      s.(procs := s.procs[i := p.(pc := InNative)], native := s.native.Put(p.child.pid, i))
    case PutJava(i) =>
      var p := s.procs[i];
      s.(procs := s.procs[i := p.(pc := InJava)], java := s.java.Register(p.child.pid, i))
    case Callback(i, ev) =>
      var p := s.procs[i];
      var said := Effects(p.child, ev);
      var gone := Leaves(said);
      s.(procs := s.procs[i := p.(child := p.child.Step(ev), left := if gone then At(p.pc) else p.left)],
         java := Heard(s.java, p.child.pid, said),
         turn := if gone then Erasing(i) else s.turn)
    case Erase =>
      var i := s.turn.proc;
      var p := s.procs[i];
      s.(procs := s.procs[i := p.(erased := At(p.pc))], native := s.native.Drop(p.child.pid), turn := Free)
    case Signal(pid, signal) => s.(native := s.native.Send(pid, signal))
  }

  /** A run from the start, and the state it ends in. */
  ghost predicate Possible(acts: seq<Act>) {
    acts == [] || (Possible(acts[..|acts| - 1]) && Enabled(StateAfter(acts[..|acts| - 1]), acts[|acts| - 1]))
  }

  ghost function StateAfter(acts: seq<Act>): Sys {
    if acts == [] then START
    else
      var s, a := StateAfter(acts[..|acts| - 1]), acts[|acts| - 1];
      if Enabled(s, a) then Step(s, a) else s
  }

  // ----- pids

  /** The exit step came before the insert, or has not come. */
  predicate MissedJava(p: Proc) { p.left.Never? || p.left.pc != InJava }

  predicate MissedNative(p: Proc) { p.erased.Never? || p.erased.pc == Returned }

  /** A table entry was made for the process and it has not taken it away. */
  predicate ListedJava(p: Proc) { p.pc == InJava && MissedJava(p) }

  predicate ListedNative(p: Proc) { (p.pc == InNative || p.pc == InJava) && MissedNative(p) }

  /** A process takes no step any more: no callback, none of its thread, no half of its exit
      listener. */
  predicate Done(p: Proc) {
    Silent(p.child) && (p.pc == Idle || p.pc == InJava) && !(p.left.At? && p.erased.Never?)
  }

  /** Something of a started process remains to happen. */
  predicate Busy(p: Proc) { p.child.started && !Done(p) }

  /** It takes no step any more and has left no entry behind. */
  predicate Over(p: Proc) { Done(p) && !ListedJava(p) && !ListedNative(p) }

  predicate Live(p: Proc) { p.child.started && !Over(p) }

  /** The pid that an action has the system give out. */
  predicate Gives(a: Act, pid: int) { a.Spawn? && a.outcome.spawn == 0 && a.outcome.pid == pid }

  /** Process `i` gets no pid that belongs to another busy process, and no other process
      gets the pid of `i` while it is busy. Stale entries do not matter. */
  ghost predicate Apart(s: Sys, a: Act, i: nat) {
    a.Spawn? ==>
      forall j :: j in s.procs && Busy(s.procs[j]) && (a.proc == i || j == i) ==> !Gives(a, s.procs[j].child.pid)
  }

  /** Moreover no other process gets the pid of `i` while an entry of `i` is left. */
  ghost predicate Kept(s: Sys, a: Act, i: nat) {
    Apart(s, a, i) && (a.Spawn? && a.proc != i && i in s.procs && Live(s.procs[i]) ==> !Gives(a, s.procs[i].child.pid))
  }

  /** The system gives out no pid of a busy process. */
  ghost predicate Unused(s: Sys, a: Act) {
    forall j :: j in s.procs && Busy(s.procs[j]) ==> !Gives(a, s.procs[j].child.pid)
  }

  /** These, at every step of a run. */
  ghost predicate PidApart(acts: seq<Act>, i: nat) {
    acts == [] ||
    (PidApart(acts[..|acts| - 1], i) && Apart(StateAfter(acts[..|acts| - 1]), acts[|acts| - 1], i))
  }

  ghost predicate PidKept(acts: seq<Act>, i: nat) {
    acts == [] ||
    (PidKept(acts[..|acts| - 1], i) && Kept(StateAfter(acts[..|acts| - 1]), acts[|acts| - 1], i))
  }

  ghost predicate PidsUnused(acts: seq<Act>) {
    acts == [] ||
    (PidsUnused(acts[..|acts| - 1]) && Unused(StateAfter(acts[..|acts| - 1]), acts[|acts| - 1]))
  }

  // ----- the invariant

  ghost predicate InJavaTable(s: Sys, i: nat) {
    i in s.procs && var pid := s.procs[i].child.pid; pid in s.java.table && s.java.table[pid] == i
  }

  ghost predicate InNativeTable(s: Sys, i: nat) {
    i in s.procs && var pid := s.procs[i].child.pid; pid in s.native.table && s.native.table[pid] == i
  }

  /** A process by itself. */
  ghost predicate ProcOk(p: Proc) {
    && Inv(p.child)
    && (p.pc != Idle ==> p.child.started) && (p.child.started ==> p.child.pid > 0)
    && (p.child.pipeErr.reading <==> p.pc != Idle)
    && (p.left.At? <==> p.child.exited && p.child.stderrFlushed)
    && (p.left.At? ==> p.left.pc != Idle && p.left.pc.Rank() <= p.pc.Rank())
    && (p.erased.At? ==> p.left.At? && p.left.pc.Rank() <= p.erased.pc.Rank() <= p.pc.Rank())
  }

  /** It is the turn of a process exactly between the halves of its exit listener. */
  ghost predicate TurnOk(s: Sys, i: nat)
    requires i in s.procs
  {
    s.turn == Erasing(i) <==> s.procs[i].left.At? && s.procs[i].erased.Never?
  }

  ghost predicate Owned(s: Sys, i: nat, pid: int) {
    i in s.procs && s.procs[i].child.started && s.procs[i].child.pid == pid
  }

  /** Entries name existing, started processes under their own pids. */
  ghost predicate EntriesOk(s: Sys) {
    && (forall pid :: pid in s.java.table ==> Owned(s, s.java.table[pid], pid))
    && (forall pid :: pid in s.native.table ==> Owned(s, s.native.table[pid], pid))
  }

  /** What holds however pids are given out. */
  ghost predicate BaseOk(s: Sys) {
    && EntriesOk(s) && (s.turn.Erasing? ==> s.turn.proc in s.procs)
    && forall i :: i in s.procs ==> ProcOk(s.procs[i]) && TurnOk(s, i)
  }

  /** The tables list process `i` as its own history says. */
  ghost predicate ListingOk(s: Sys, i: nat)
    requires i in s.procs
  {
    (InJavaTable(s, i) <==> ListedJava(s.procs[i])) && (InNativeTable(s, i) <==> ListedNative(s.procs[i]))
  }

  /** No busy process has the pid of `i`, should `i` be live. */
  ghost predicate NoClash(s: Sys, i: nat)
    requires i in s.procs
  {
    Live(s.procs[i]) ==>
      forall j :: j in s.procs && j != i && Busy(s.procs[j]) ==> s.procs[j].child.pid != s.procs[i].child.pid
  }

  /** What holds for a process whose pid is kept. */
  ghost predicate OwnOk(s: Sys, i: nat) {
    i in s.procs ==> ListingOk(s, i) && NoClash(s, i)
  }

  // ----- one lemma per action

  lemma {:induction false} HeardTable(j: Java, pid: int, said: seq<Effect>)
    ensures Heard(j, pid, said).table == if Leaves(said) then j.table - {pid} else j.table
  {
    if said == [] {
    } else {
      var was := said[..|said| - 1];
      HeardTable(j, pid, was);
      assert forall k :: 0 <= k < |was| ==> was[k] == said[k];
      assert Leaves(said) <==> Leaves(was) || IsExit(said[|said| - 1]);
    }
  }

  /** "exit" is among the effects of an event exactly if it completes the pair. */
  lemma LeavesIff(c: Child, ev: Event)
    ensures Leaves(Effects(c, ev)) <==> (ev.ExitCb? && c.stderrFlushed) || (IsStderrEnd(ev) && c.exited)
  {
    var e := if ev.ExitCb? then Emit(Exit(ev.status, ev.signal)) else Emit(Exit(c.exitStatus, c.termSignal));
    var said := Effects(c, ev);
    if (ev.ExitCb? && c.stderrFlushed) || (IsStderrEnd(ev) && c.exited) {
      assert said[|said| - 1] == e && IsExit(e);
    }
  }

  /** `t` differs from `s` only in process `k` and in the table entries of its pid, and in
      those only if the process is busy. */
  ghost predicate OnlyAt(s: Sys, t: Sys, k: nat) {
    && k in s.procs && t.procs.Keys == s.procs.Keys
    && (forall j :: j in s.procs && j != k ==> t.procs[j] == s.procs[j])
    && (forall j :: j != k ==> (t.turn == Erasing(j) <==> s.turn == Erasing(j)))
    && (s.procs[k].child.started ==>
          t.procs[k].child.started && t.procs[k].child.pid == s.procs[k].child.pid)
    && (Busy(s.procs[k]) || (t.java.table == s.java.table && t.native.table == s.native.table))
    && TableOnlyAt(s.java.table, t.java.table, s.procs[k].child.pid, k)
    && TableOnlyAt(s.native.table, t.native.table, s.procs[k].child.pid, k)
  }

  ghost predicate TableOnlyAt(m: map<int, nat>, n: map<int, nat>, pid: int, k: nat) {
    && (forall q :: q != pid ==> (q in n <==> q in m))
    && (forall q :: q != pid && q in m ==> n[q] == m[q])
    && (pid in n ==> n[pid] == k || (pid in m && n[pid] == m[pid]))
  }

  lemma TableLess(m: map<int, nat>, pid: int, k: nat)
    ensures TableOnlyAt(m, m, pid, k) && TableOnlyAt(m, m - {pid}, pid, k)
    ensures TableOnlyAt(m, m[pid := k], pid, k)
  {}

  lemma EntriesAfter(s: Sys, t: Sys, k: nat)
    requires EntriesOk(s) && OnlyAt(s, t, k)
    ensures EntriesOk(t)
  {
    assert forall j, pid :: Owned(s, j, pid) ==> Owned(t, j, pid);
  }

  /** The other processes are as well off as before. */
  lemma BaseAfter(s: Sys, t: Sys, k: nat)
    requires BaseOk(s) && OnlyAt(s, t, k) && ProcOk(t.procs[k]) && TurnOk(t, k)
    ensures BaseOk(t)
  {
    EntriesAfter(s, t, k);
    forall j | j in t.procs && j != k ensures TurnOk(t, j) {
      assert TurnOk(s, j);
    }
  }

  /** A process keeps its listing through a step of another one that does not share its
      pid, or of one that is not busy. */
  lemma OwnOther(s: Sys, t: Sys, k: nat, i: nat)
    requires BaseOk(s) && OnlyAt(s, t, k) && i in s.procs && i != k && OwnOk(s, i)
    requires Live(s.procs[i]) && Busy(t.procs[k]) ==> t.procs[k].child.pid != s.procs[i].child.pid
    ensures OwnOk(t, i)
  {
    assert t.procs[i] == s.procs[i] && ProcOk(s.procs[i]) && ListingOk(s, i);
    assert InJavaTable(t, i) <==> InJavaTable(s, i);
    assert InNativeTable(t, i) <==> InNativeTable(s, i);
  }

  /** Whoever is busy after a step was busy before it, with the same pid, unless it was
      just spawned. */
  ghost predicate StillBusy(s: Sys, t: Sys, k: nat)
    requires k in s.procs && k in t.procs
  {
    Busy(t.procs[k]) ==> Busy(s.procs[k]) && t.procs[k].child.pid == s.procs[k].child.pid
  }

  lemma OwnAfter(s: Sys, t: Sys, k: nat, i: nat)
    requires BaseOk(s) && OnlyAt(s, t, k) && OwnOk(s, i) && StillBusy(s, t, k)
    requires i == k ==> ListingOk(t, k) && (Live(t.procs[k]) ==> Live(s.procs[k]))
    ensures OwnOk(t, i)
  {
    if i in s.procs && i != k { OwnOther(s, t, k, i); }
  }

  lemma CreateBase(s: Sys, i: nat, timeout: nat, junk: int)
    requires BaseOk(s) && Enabled(s, Create(i, timeout, junk))
    ensures BaseOk(Step(s, Create(i, timeout, junk)))
  {
    var t := Step(s, Create(i, timeout, junk));
    InvFresh(timeout, junk);
    forall j | j in t.procs ensures ProcOk(t.procs[j]) && TurnOk(t, j) {
      assert j != i ==> ProcOk(s.procs[j]) && TurnOk(s, j);
    }
    assert forall j, pid :: Owned(s, j, pid) ==> Owned(t, j, pid);
  }

  lemma CreateOwn(s: Sys, k: nat, timeout: nat, junk: int, i: nat)
    requires BaseOk(s) && Enabled(s, Create(k, timeout, junk)) && OwnOk(s, i)
    ensures OwnOk(Step(s, Create(k, timeout, junk)), i)
  {
    var t := Step(s, Create(k, timeout, junk));
    if i == k {
      assert forall pid :: !Owned(s, i, pid);
    } else if i in s.procs {
      assert ListingOk(s, i) && t.procs[i] == s.procs[i];
    }
  }

  lemma PutNativeSelf(s: Sys, k: nat)
    requires BaseOk(s) && Enabled(s, PutNative(k))
    ensures var t := Step(s, PutNative(k)); ProcOk(t.procs[k]) && TurnOk(t, k) && Busy(s.procs[k])
    ensures OnlyAt(s, Step(s, PutNative(k)), k)
  {
    assert ProcOk(s.procs[k]) && TurnOk(s, k);
    PutNativeOnly(s, k);
  }

  lemma PutNativeOnly(s: Sys, k: nat)
    requires Enabled(s, PutNative(k)) && Busy(s.procs[k])
    ensures OnlyAt(s, Step(s, PutNative(k)), k)
  {
    TableLess(s.native.table, s.procs[k].child.pid, k);
    TableLess(s.java.table, s.procs[k].child.pid, k);
  }

  lemma PutJavaSelf(s: Sys, k: nat)
    requires BaseOk(s) && Enabled(s, PutJava(k))
    ensures var t := Step(s, PutJava(k)); ProcOk(t.procs[k]) && TurnOk(t, k) && Busy(s.procs[k])
    ensures OnlyAt(s, Step(s, PutJava(k)), k)
  {
    assert ProcOk(s.procs[k]) && TurnOk(s, k);
    PutJavaOnly(s, k);
  }

  lemma PutJavaOnly(s: Sys, k: nat)
    requires Enabled(s, PutJava(k)) && Busy(s.procs[k])
    ensures OnlyAt(s, Step(s, PutJava(k)), k)
  {
    TableLess(s.native.table, s.procs[k].child.pid, k);
    TableLess(s.java.table, s.procs[k].child.pid, k);
  }

  lemma EraseSelf(s: Sys)
    requires BaseOk(s) && Enabled(s, Erase)
    ensures var k, t := s.turn.proc, Step(s, Erase); ProcOk(t.procs[k]) && TurnOk(t, k) && Busy(s.procs[k])
    ensures OnlyAt(s, Step(s, Erase), s.turn.proc)
  {
    var k := s.turn.proc;
    assert ProcOk(s.procs[k]) && TurnOk(s, k);
    TableLess(s.native.table, s.procs[k].child.pid, k);
    TableLess(s.java.table, s.procs[k].child.pid, k);
  }

  /** The listing of the process that moves. */
  lemma PutNativeOwn(s: Sys, k: nat, i: nat)
    requires BaseOk(s) && Enabled(s, PutNative(k)) && OwnOk(s, i)
    ensures OwnOk(Step(s, PutNative(k)), i)
  {
    PutNativeSelf(s, k);
    assert ProcOk(s.procs[k]);
    OwnAfter(s, Step(s, PutNative(k)), k, i);
  }

  lemma PutJavaOwn(s: Sys, k: nat, i: nat)
    requires BaseOk(s) && Enabled(s, PutJava(k)) && OwnOk(s, i)
    ensures OwnOk(Step(s, PutJava(k)), i)
  {
    PutJavaSelf(s, k);
    assert ProcOk(s.procs[k]);
    OwnAfter(s, Step(s, PutJava(k)), k, i);
  }

  lemma EraseOwn(s: Sys, i: nat)
    requires BaseOk(s) && Enabled(s, Erase) && OwnOk(s, i)
    ensures OwnOk(Step(s, Erase), i)
  {
    EraseSelf(s);
    assert ProcOk(s.procs[s.turn.proc]) && TurnOk(s, s.turn.proc);
    OwnAfter(s, Step(s, Erase), s.turn.proc, i);
  }

  lemma SignalBase(s: Sys, pid: int, signal: int)
    requires BaseOk(s)
    ensures BaseOk(Step(s, Signal(pid, signal)))
    ensures forall i :: OwnOk(s, i) ==> OwnOk(Step(s, Signal(pid, signal)), i)
  {
    var t := Step(s, Signal(pid, signal));
    forall j | j in s.procs ensures TurnOk(t, j) {
      assert TurnOk(s, j);
    }
    assert forall j, pid :: Owned(s, j, pid) ==> Owned(t, j, pid);
    forall i | OwnOk(s, i) && i in s.procs ensures OwnOk(t, i) {
      assert ListingOk(s, i);
    }
  }

  lemma SpawnStarts(c: Child, o: Outcome)
    requires Inv(c) && !c.called
    ensures !c.started && (c.OnSpawn(o).started <==> o.spawn == 0)
    ensures c.OnSpawn(o).pid == if o.spawn == 0 then o.pid else c.pid
    ensures Works(o) <==> c.OnSpawn(o).pipeErr.reading
  {}

  lemma SpawnSelf(s: Sys, k: nat, o: Outcome)
    requires BaseOk(s) && Enabled(s, Spawn(k, o))
    ensures var t := Step(s, Spawn(k, o)); ProcOk(t.procs[k]) && TurnOk(t, k) && OnlyAt(s, t, k)
  {
    var c := s.procs[k].child;
    assert ProcOk(s.procs[k]) && TurnOk(s, k);
    InvStep(c, CallSpawn(o));
    SpawnFlags(c, o);
    SpawnStarts(c, o);
    TableLess(s.native.table, c.pid, k);
    TableLess(s.java.table, c.pid, k);
  }

  lemma SpawnOwn(s: Sys, k: nat, o: Outcome, i: nat)
    requires BaseOk(s) && Enabled(s, Spawn(k, o)) && OwnOk(s, i) && Kept(s, Spawn(k, o), i)
    ensures OwnOk(Step(s, Spawn(k, o)), i)
  {
    SpawnSelf(s, k, o);
    SpawnStarts(s.procs[k].child, o);
    assert ProcOk(s.procs[k]);
    if i == k {
      assert forall pid :: !Owned(s, i, pid);
    } else if i in s.procs {
      OwnOther(s, Step(s, Spawn(k, o)), k, i);
    }
  }

  /** What a callback may change in its child. */
  ghost predicate Moved(c: Child, d: Child, gone: bool) {
    Inv(d) && d.pid == c.pid && d.started == c.started && d.pipeErr.reading == c.pipeErr.reading &&
    (d.exited && d.stderrFlushed <==> (c.exited && c.stderrFlushed) || gone) &&
    (gone ==> !(c.exited && c.stderrFlushed) && c.started)
  }

  lemma CallbackMoves(c: Child, ev: Event)
    requires Inv(c) && c.Enabled(ev) && !ev.CallSpawn?
    ensures Moved(c, c.Step(ev), Leaves(Effects(c, ev))) && !Silent(c)
  {
    InvStep(c, ev);
    StepFlags(c, ev);
    StepReading(c, ev);
    LeavesIff(c, ev);
    SamePid(c, ev);
    SilentIff(c);
  }

  lemma SamePid(c: Child, ev: Event)
    requires !ev.CallSpawn?
    ensures c.Step(ev).pid == c.pid && c.Step(ev).started == c.started
  {
    if ev.ReadCb? { ReadingRead(c, ev.stream, ev.result); }
  }

  lemma CallbackSelf(s: Sys, k: nat, ev: Event)
    requires BaseOk(s) && Enabled(s, Callback(k, ev))
    ensures var t := Step(s, Callback(k, ev)); ProcOk(t.procs[k]) && TurnOk(t, k)
  {
    assert ProcOk(s.procs[k]) && TurnOk(s, k);
    CallbackMoves(s.procs[k].child, ev);
  }

  lemma CallbackOnly(s: Sys, k: nat, ev: Event)
    requires BaseOk(s) && Enabled(s, Callback(k, ev))
    ensures OnlyAt(s, Step(s, Callback(k, ev)), k) && StillBusy(s, Step(s, Callback(k, ev)), k)
  {
    var c, gone := s.procs[k].child, Leaves(Effects(s.procs[k].child, ev));
    assert ProcOk(s.procs[k]);
    CallbackMoves(c, ev);
    HeardTable(s.java, c.pid, Effects(c, ev));
    OnlyAtIf(s, Step(s, Callback(k, ev)), k, gone);
  }

  lemma OnlyAtIf(s: Sys, t: Sys, k: nat, gone: bool)
    requires k in s.procs && k in t.procs && t.procs == s.procs[k := t.procs[k]] && s.turn == Free
    requires t.procs[k].child.started == s.procs[k].child.started && t.procs[k].child.pid == s.procs[k].child.pid
    requires t.native == s.native && t.turn == (if gone then Erasing(k) else Free)
    requires t.java.table == if gone then s.java.table - {s.procs[k].child.pid} else s.java.table
    requires gone ==> Busy(s.procs[k])
    ensures OnlyAt(s, t, k)
  {
    TableLess(s.java.table, s.procs[k].child.pid, k);
    TableLess(s.native.table, s.procs[k].child.pid, k);
  }

  lemma CallbackOwn(s: Sys, k: nat, ev: Event, i: nat)
    requires BaseOk(s) && Enabled(s, Callback(k, ev)) && OwnOk(s, i)
    ensures OwnOk(Step(s, Callback(k, ev)), i)
  {
    CallbackOnly(s, k, ev);
    if i == k { CallbackListing(s, k, ev); }
    OwnAfter(s, Step(s, Callback(k, ev)), k, i);
  }

  lemma CallbackListing(s: Sys, k: nat, ev: Event)
    requires BaseOk(s) && Enabled(s, Callback(k, ev)) && OwnOk(s, k)
    ensures var t := Step(s, Callback(k, ev)); ListingOk(t, k) && (Live(t.procs[k]) ==> Live(s.procs[k]))
  {
    assert ProcOk(s.procs[k]) && ListingOk(s, k);
    CallbackMoves(s.procs[k].child, ev);
    HeardTable(s.java, s.procs[k].child.pid, Effects(s.procs[k].child, ev));
  }

  // ----- on every run

  lemma BaseStep(s: Sys, a: Act)
    requires BaseOk(s) && Enabled(s, a)
    ensures BaseOk(Step(s, a))
  {
    match a
    case Create(i, timeout, junk) => CreateBase(s, i, timeout, junk);
    case Spawn(k, o) => SpawnSelf(s, k, o); BaseAfter(s, Step(s, a), k);
    case PutNative(k) => PutNativeSelf(s, k); BaseAfter(s, Step(s, a), k);
    case PutJava(k) => PutJavaSelf(s, k); BaseAfter(s, Step(s, a), k);
    case Callback(k, ev) => CallbackSelf(s, k, ev); CallbackOnly(s, k, ev); BaseAfter(s, Step(s, a), k);
    case Erase => EraseSelf(s); BaseAfter(s, Step(s, a), s.turn.proc);
    case Signal(pid, signal) => SignalBase(s, pid, signal);
  }

  /** Every step keeps the listing of a process whose pid is kept. */
  lemma OwnStep(s: Sys, a: Act, i: nat)
    requires BaseOk(s) && Enabled(s, a) && OwnOk(s, i) && Kept(s, a, i)
    ensures OwnOk(Step(s, a), i)
  {
    match a
    case Create(k, timeout, junk) => CreateOwn(s, k, timeout, junk, i);
    case Spawn(k, o) => SpawnOwn(s, k, o, i);
    case PutNative(k) => PutNativeOwn(s, k, i);
    case PutJava(k) => PutJavaOwn(s, k, i);
    case Callback(k, ev) => CallbackOwn(s, k, ev, i);
    case Erase => EraseOwn(s, i);
    case Signal(pid, signal) => SignalBase(s, pid, signal);
  }

  /** Whatever pids are given out. */
  lemma {:induction false} BaseReachable(acts: seq<Act>)
    requires Possible(acts)
    ensures BaseOk(StateAfter(acts))
  {
    if acts == [] {
    } else {
      BaseReachable(acts[..|acts| - 1]);
      BaseStep(StateAfter(acts[..|acts| - 1]), acts[|acts| - 1]);
    }
  }

  lemma {:induction false} OwnReachable(acts: seq<Act>, i: nat)
    requires Possible(acts) && PidKept(acts, i)
    ensures BaseOk(StateAfter(acts)) && OwnOk(StateAfter(acts), i)
  {
    if acts == [] {
    } else {
      OwnReachable(acts[..|acts| - 1], i);
      BaseStep(StateAfter(acts[..|acts| - 1]), acts[|acts| - 1]);
      OwnStep(StateAfter(acts[..|acts| - 1]), acts[|acts| - 1], i);
    }
  }

  /** The process `i` takes part in the action. */
  predicate Involves(a: Act, i: nat) {
    (a.Create? || a.Spawn? || a.PutNative? || a.PutJava? || a.Callback?) && a.proc == i
  }

  /** A started process is done exactly if it will take no step any more, whatever the
      others do first. */
  lemma DoneIff(s: Sys, i: nat)
    requires BaseOk(s) && i in s.procs && s.procs[i].child.started
    ensures Done(s.procs[i]) <==>
            (forall a :: Enabled(s.(turn := Free), a) ==> !Involves(a, i)) && s.turn != Erasing(i)
  {
    var c, free := s.procs[i].child, s.(turn := Free);
    assert ProcOk(s.procs[i]) && TurnOk(s, i);
    SilentIff(c);
    if forall a :: Enabled(free, a) ==> !Involves(a, i) {
      assert Involves(PutNative(i), i) && Involves(PutJava(i), i);
      forall ev | c.Enabled(ev) ensures ev.CallSpawn? {
        assert Involves(Callback(i, ev), i);
      }
    }
  }

  /** What is done stays as it is. */
  lemma DoneForGood(s: Sys, a: Act, i: nat)
    requires BaseOk(s) && Enabled(s, a) && i in s.procs && s.procs[i].child.started && Done(s.procs[i])
    ensures Step(s, a).procs[i] == s.procs[i]
  {
    DoneIff(s, i);
    assert a.Erase? || Enabled(s.(turn := Free), a);
  }

  /** It is over exactly if, moreover, neither table lists it. */
  lemma OverIff(s: Sys, i: nat)
    requires BaseOk(s) && OwnOk(s, i) && i in s.procs && s.procs[i].child.started
    ensures Over(s.procs[i]) <==>
            (forall a :: Enabled(s.(turn := Free), a) ==> !Involves(a, i)) && s.turn != Erasing(i) &&
            !InJavaTable(s, i) && !InNativeTable(s, i)
  {
    DoneIff(s, i);
    assert ListingOk(s, i);
  }

  /** The exit step of a process has been taken. */
  predicate Gone(p: Proc) { p.left.At? }

  /** The thread that spawned it had made both inserts by then, or it is still running. */
  predicate InsertsFirst(p: Proc) { p.left.At? ==> p.left.pc == InJava }

  ghost predicate AllInsertsFirst(s: Sys) {
    forall i :: i in s.procs ==> InsertsFirst(s.procs[i])
  }

  /** No thread is between a spawn and its inserts, or between the two halves of an exit. */
  ghost predicate Quiescent(s: Sys) {
    s.turn.Free? && forall i :: i in s.procs ==> s.procs[i].pc.Idle? || s.procs[i].pc.InJava?
  }

  /** A process whose inserts came first leaves nothing stale behind. */
  lemma DoneIsOver(p: Proc)
    requires ProcOk(p) && p.child.started && InsertsFirst(p) && Done(p)
    ensures Over(p)
  {}

  lemma LeftStays(s: Sys, a: Act, i: nat)
    requires BaseOk(s) && Enabled(s, a) && i in s.procs && Gone(s.procs[i])
    ensures Step(s, a).procs[i].left == s.procs[i].left
  {
    assert ProcOk(s.procs[i]);
    if a.Callback? && a.proc == i {
      CallbackMoves(s.procs[i].child, a.event);
    }
  }

  /** If its inserts came first, it is enough that pids are apart while processes are busy. */
  lemma {:induction false} KeptIfFirst(acts: seq<Act>, i: nat)
    requires Possible(acts) && PidApart(acts, i)
    requires i in StateAfter(acts).procs ==> InsertsFirst(StateAfter(acts).procs[i])
    ensures PidKept(acts, i)
  {
    if acts == [] {
    } else {
      var was, a := acts[..|acts| - 1], acts[|acts| - 1];
      var s := StateAfter(was);
      BaseReachable(was);
      if i in s.procs {
        if Gone(s.procs[i]) { LeftStays(s, a, i); }
        assert ProcOk(s.procs[i]);
        if s.procs[i].child.started && Done(s.procs[i]) { DoneIsOver(s.procs[i]); }
      }
      KeptIfFirst(was, i);
    }
  }

  lemma {:induction false} ApartIfUnused(acts: seq<Act>, i: nat)
    requires PidsUnused(acts)
    ensures PidApart(acts, i)
  {
    if acts == [] {
    } else {
      ApartIfUnused(acts[..|acts| - 1], i);
    }
  }

  lemma Listed(acts: seq<Act>, i: nat)
    requires Possible(acts) && PidApart(acts, i) && i in StateAfter(acts).procs &&
             InsertsFirst(StateAfter(acts).procs[i])
    ensures var s := StateAfter(acts); var p := s.procs[i];
            (InJavaTable(s, i) <==> p.pc == InJava && !Gone(p)) &&
            (InNativeTable(s, i) <==>
             (p.pc == InNative || p.pc == InJava) && (!Gone(p) || s.turn == Erasing(i)))
  {
    KeptIfFirst(acts, i);
    OwnReachable(acts, i);
    var s := StateAfter(acts);
    assert ProcOk(s.procs[i]) && TurnOk(s, i) && ListingOk(s, i);
  }

  /** With inserts before exit steps, the tables hold no finished pid, but for the native
      entry between the two halves of its exit step. */
  lemma NoFinishedPids(acts: seq<Act>)
    requires Possible(acts) && PidsUnused(acts)
    requires AllInsertsFirst(StateAfter(acts))
    ensures var s := StateAfter(acts);
            forall pid :: pid in s.java.table ==>
              var i := s.java.table[pid]; i in s.procs && s.procs[i].child.pid == pid && !Gone(s.procs[i])
    ensures var s := StateAfter(acts);
            forall pid :: pid in s.native.table ==>
              var i := s.native.table[pid];
              i in s.procs && s.procs[i].child.pid == pid && (!Gone(s.procs[i]) || s.turn == Erasing(i))
  {
    BaseReachable(acts);
    var s := StateAfter(acts);
    forall pid | pid in s.java.table ensures !Gone(s.procs[s.java.table[pid]]) {
      var i := s.java.table[pid];
      assert Owned(s, i, pid) && InsertsFirst(s.procs[i]);
      ApartIfUnused(acts, i);
      Listed(acts, i);
    }
    forall pid | pid in s.native.table
      ensures !Gone(s.procs[s.native.table[pid]]) || s.turn == Erasing(s.native.table[pid])
    {
      var i := s.native.table[pid];
      assert Owned(s, i, pid) && InsertsFirst(s.procs[i]);
      ApartIfUnused(acts, i);
      Listed(acts, i);
    }
  }

  /** At quiescent points both tables are the same, and hold exactly the processes that
      were registered and have not exited. */
  lemma TablesAgree(acts: seq<Act>)
    requires Possible(acts) && PidsUnused(acts) && Quiescent(StateAfter(acts))
    requires AllInsertsFirst(StateAfter(acts))
    ensures var s := StateAfter(acts); s.native.table == s.java.table
    ensures var s := StateAfter(acts);
            forall i :: i in s.procs ==> (InJavaTable(s, i) <==> s.procs[i].pc == InJava && !Gone(s.procs[i]))
  {
    BaseReachable(acts);
    var s := StateAfter(acts);
    forall i | i in s.procs
      ensures InJavaTable(s, i) <==> s.procs[i].pc == InJava && !Gone(s.procs[i])
      ensures InJavaTable(s, i) <==> InNativeTable(s, i)
    {
      assert InsertsFirst(s.procs[i]);
      ApartIfUnused(acts, i);
      Listed(acts, i);
    }
    forall pid ensures pid in s.native.table <==> pid in s.java.table
               ensures pid in s.native.table ==> s.native.table[pid] == s.java.table[pid]
    {
      if pid in s.native.table { assert Owned(s, s.native.table[pid], pid) && InNativeTable(s, s.native.table[pid]); }
      if pid in s.java.table { assert Owned(s, s.java.table[pid], pid) && InJavaTable(s, s.java.table[pid]); }
    }
  }

  /** In any order of inserts and exit steps, a process is listed in a table from its insert
      on, until its own exit step if that comes later, and else as long as its pid is kept. */
  lemma ListedIff(acts: seq<Act>, i: nat)
    requires Possible(acts) && PidKept(acts, i) && i in StateAfter(acts).procs
    ensures var s := StateAfter(acts); var p := s.procs[i];
            (InJavaTable(s, i) <==> p.pc == InJava && !(Gone(p) && p.left.pc == InJava)) &&
            (InNativeTable(s, i) <==>
             (p.pc == InNative || p.pc == InJava) && !(p.erased.At? && p.erased.pc != Returned))
  {
    OwnReachable(acts, i);
    assert ListingOk(StateAfter(acts), i);
  }

  /** In any order, a Java entry of a finished process is there exactly if its exit step
      came before its insert, and a native one, once erased, exactly if the erase did. */
  lemma StaleIff(acts: seq<Act>, i: nat)
    requires Possible(acts) && PidKept(acts, i) && i in StateAfter(acts).procs && Gone(StateAfter(acts).procs[i])
    ensures var s := StateAfter(acts); var p := s.procs[i];
            (InJavaTable(s, i) <==> p.pc == InJava && p.left.pc != InJava) &&
            (p.erased.At? ==> (InNativeTable(s, i) <==>
                               (p.pc == InNative || p.pc == InJava) && p.erased.pc == Returned))
  {
    ListedIff(acts, i);
  }

  /** An entry that its own process will not take away any more. */
  predicate StaleJava(p: Proc) { p.pc == InJava && p.left.At? && p.left.pc != InJava }

  predicate StaleNative(p: Proc) { (p.pc == InNative || p.pc == InJava) && p.erased == At(Returned) }

  /** Stale entries stay as long as the pid is kept. */
  lemma {:induction false} StaleStays(acts: seq<Act>, more: seq<Act>, i: nat)
    requires Possible(acts + more) && PidKept(acts + more, i) && i in StateAfter(acts).procs
    ensures var p, t := StateAfter(acts).procs[i], StateAfter(acts + more);
            (StaleJava(p) ==> InJavaTable(t, i) && StaleJava(t.procs[i])) &&
            (StaleNative(p) ==> InNativeTable(t, i) && StaleNative(t.procs[i])) && i in t.procs
  {
    if more == [] {
      assert acts + more == acts;
      OwnReachable(acts, i);
      assert ListingOk(StateAfter(acts), i);
    } else {
      var was, a := more[..|more| - 1], more[|more| - 1];
      assert acts + more == (acts + was) + [a] && (acts + more)[..|acts + more| - 1] == acts + was;
      StaleStays(acts, was, i);
      OwnReachable(acts + was, i);
      OwnReachable(acts + more, i);
      StaleStep(StateAfter(acts + was), a, i);
    }
  }

  lemma StaleStep(s: Sys, a: Act, i: nat)
    requires BaseOk(s) && Enabled(s, a) && i in s.procs
    ensures var p, q := s.procs[i], Step(s, a).procs[i];
            (StaleJava(p) ==> StaleJava(q)) && (StaleNative(p) ==> StaleNative(q))
  {
    assert ProcOk(s.procs[i]) && TurnOk(s, i);
    if Gone(s.procs[i]) { LeftStays(s, a, i); }
  }

  /** However pids are given out, what takes a Java entry away: the insert of another
      process with the same pid, or an exit step under that pid. */
  lemma EntryGoes(s: Sys, a: Act, i: nat)
    requires BaseOk(s) && Enabled(s, a) && InJavaTable(s, i)
    ensures !InJavaTable(Step(s, a), i) <==>
            (a.PutJava? || (a.Callback? && Leaves(Effects(s.procs[a.proc].child, a.event)))) &&
            (a.PutJava? ==> a.proc != i) && s.procs[a.proc].child.pid == s.procs[i].child.pid
  {
    assert Owned(s, i, s.procs[i].child.pid) && ProcOk(s.procs[i]);
    if a.Callback? {
      CallbackEntry(s, a.proc, a.event, i);
    } else if a.Spawn? {
      assert ProcOk(s.procs[a.proc]);
      SpawnStarts(s.procs[a.proc].child, a.outcome);
    }
  }

  lemma CallbackEntry(s: Sys, k: nat, ev: Event, i: nat)
    requires BaseOk(s) && Enabled(s, Callback(k, ev)) && InJavaTable(s, i)
    ensures var c := s.procs[k].child;
            !InJavaTable(Step(s, Callback(k, ev)), i) <==> Leaves(Effects(c, ev)) && c.pid == s.procs[i].child.pid
  {
    var c := s.procs[k].child;
    SamePid(c, ev);
    HeardTable(s.java, c.pid, Effects(c, ev));
  }

  /** A signal for a pid reaches exactly the process that has the pid and is listed, and so
      a finished one only through a stale entry or between the halves of its exit step. */
  lemma SignalReaches(acts: seq<Act>, pid: int, signal: int, i: nat)
    requires Possible(acts) && PidKept(acts, i) && i in StateAfter(acts).procs
    ensures var s := StateAfter(acts); var p := s.procs[i];
            (Step(s, Signal(pid, signal)).native.sent == s.native.sent + [Sent(i, signal)] <==>
             p.child.pid == pid && ListedNative(p)) &&
            (ListedNative(p) && Gone(p) ==> s.turn == Erasing(i) || p.erased == At(Returned))
  {
    OwnReachable(acts, i);
    var s := StateAfter(acts);
    assert ProcOk(s.procs[i]) && ListingOk(s, i) && TurnOk(s, i);
    if pid in s.native.table {
      var k := s.native.table[pid];
      assert Owned(s, k, pid);
      var more := s.native.sent + [Sent(k, signal)];
      assert more[|s.native.sent|] == Sent(k, signal);
    }
  }

  /** However pids are given out: a signal goes to the process listed under the pid, and to
      nobody if there is none; the tables stay. */
  lemma SignalGoes(acts: seq<Act>, pid: int, signal: int)
    requires Possible(acts)
    ensures var s, t := StateAfter(acts), Step(StateAfter(acts), Signal(pid, signal));
            (forall i :: InNativeTable(s, i) && s.procs[i].child.pid == pid ==>
               t.native.sent == s.native.sent + [Sent(i, signal)]) &&
            ((forall i :: InNativeTable(s, i) ==> s.procs[i].child.pid != pid) ==> t.native.sent == s.native.sent) &&
            t.native.table == s.native.table && t.java == s.java && t.procs == s.procs
  {
    BaseReachable(acts);
    var s := StateAfter(acts);
    if pid in s.native.table {
      assert Owned(s, s.native.table[pid], pid) && InNativeTable(s, s.native.table[pid]);
    }
  }

  lemma Snoc(acts: seq<Act>, a: Act)
    requires Possible(acts) && Enabled(StateAfter(acts), a)
    ensures Possible(acts + [a]) && StateAfter(acts + [a]) == Step(StateAfter(acts), a)
    ensures PidsUnused(acts) && Unused(StateAfter(acts), a) ==> PidsUnused(acts + [a])
  {
    assert (acts + [a])[..|acts|] == acts;
  }
}
