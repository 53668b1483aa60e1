/** The imperative objects, driven through whole runs: what is proved about runs holds of
    them. */
module Play {
  import opened Spawn
  import opened SpawnRuns
  import opened Tables
  import opened System
  import opened Delivery

  /** The loop, or the caller of spawn(), makes the object move. */
  method Dispatch(child: DoryProcessSpawn, ev: Event)
    modifies child
    ensures child.View() == old(child.View()).Step(ev)
  {
    match ev {
      case CallSpawn(o) => var r := child.CallSpawn(o);
      case TimerCb => child.RunTimer();
      case ExitCb(status, signal) => child.RunExit(status, signal);
      case AllocCb(st) => child.RunAlloc(st);
      case ReadCb(st, r) => if st == Out { child.RunStdout(r); } else { child.RunStderr(r); }
    }
  }

  /** A new object goes through the states of a run, and so, if every event was enabled, has
      emitted "exit" exactly if both events have happened, closed no handle twice and lost
      no buffer. */
  method PlayChild(timeout: nat, evs: seq<Event>) returns (child: DoryProcessSpawn, ghost r: Run)
    ensures r.events == evs && |r.states| == |evs| + 1 && r.states[0] == Fresh(timeout, r.states[0].pid)
    ensures child.View() == r.states[|evs|]
    ensures forall i :: 0 <= i < |evs| ==> r.states[i + 1] == r.states[i].Step(evs[i])
    ensures (forall i :: 0 <= i < |evs| ==> r.states[i].Enabled(evs[i])) ==>
              r.Possible() && Inv(child.View()) &&
              Count(IsExit, child.log) == Ones(r.Exited(|evs|) && r.StderrEnded(|evs|))
  {
    child := new DoryProcessSpawn(timeout);
    r := Run([child.View()], []);
    var k := 0;
    while k < |evs|
      invariant 0 <= k <= |evs| && fresh(child)
      invariant r.events == evs[..k] && |r.states| == k + 1 && r.states[0] == Fresh(timeout, r.states[0].pid)
      invariant child.View() == r.states[k]
      invariant forall i :: 0 <= i < k ==> r.states[i + 1] == r.states[i].Step(evs[i])
    {
      Dispatch(child, evs[k]);
      r := r.Then(evs[k]);
      k := k + 1;
    }
    if forall i :: 0 <= i < |evs| ==> r.states[i].Enabled(evs[i]) {
      PlayedRun(r);
    }
  }

  lemma PlayedRun(r: Run)
    requires |r.states| == |r.events| + 1 && r.states[0] == Fresh(r.states[0].timeout, r.states[0].pid)
    requires forall i :: 0 <= i < |r.events| ==> r.states[i + 1] == r.states[i].Step(r.events[i])
    requires forall i :: 0 <= i < |r.events| ==> r.states[i].Enabled(r.events[i])
    ensures r.Possible() && Inv(r.states[|r.events|])
    ensures Count(IsExit, r.states[|r.events|].log) == Ones(r.Exited(|r.events|) && r.StderrEnded(|r.events|))
  {
    assert forall i :: 0 <= i < |r.events| ==> r.Moves(i);
    Reachable(r, |r.events|);
    ExitOnce(r, |r.events|);
  }

  // ----- the two tables, whatever listeners are set

  /** Which listeners each DoryProcess has. */
  type Hearing = nat -> set<Listener>

  predicate Heeds(hears: Hearing, c: Call) {
    match c.what
    case Stdout(_) => OnStdout in hears(c.puppy)
    case Stderr(_) => OnStderr in hears(c.puppy)
    case Exit(_, _) => OnExit in hears(c.puppy)
    case Timeout => OnTimeout in hears(c.puppy)
  }

  /** The calls that are left when the listeners that are not set are passed over. */
  function Heeded(calls: seq<Call>, hears: Hearing): seq<Call> {
    if calls == [] then []
    else Heeded(calls[..|calls| - 1], hears) + if Heeds(hears, calls[|calls| - 1]) then [calls[|calls| - 1]] else []
  }

  lemma HeededSnoc(calls: seq<Call>, c: Call, hears: Hearing)
    ensures Heeded(calls + [c], hears) == if Heeds(hears, c) then Heeded(calls, hears) + [c] else Heeded(calls, hears)
  {
    assert (calls + [c])[..|calls|] == calls;
  }

  function TimeoutsHeard(calls: seq<Call>, i: nat): nat {
    if calls == [] then 0
    else TimeoutsHeard(calls[..|calls| - 1], i) +
         Ones(calls[|calls| - 1].puppy == i && calls[|calls| - 1].what.Timeout?)
  }

  /** A listener that is set hears all it would hear if all were set, the others nothing. */
  ghost predicate HearsIts(calls: seq<Call>, heeded: seq<Call>, hears: Hearing, i: nat) {
    && BytesHeard(heeded, i, Out) == (if OnStdout in hears(i) then BytesHeard(calls, i, Out) else [])
    && BytesHeard(heeded, i, Err) == (if OnStderr in hears(i) then BytesHeard(calls, i, Err) else [])
    && ExitsHeard(heeded, i) == (if OnExit in hears(i) then ExitsHeard(calls, i) else 0)
    && TimeoutsHeard(heeded, i) == (if OnTimeout in hears(i) then TimeoutsHeard(calls, i) else 0)
  }

  lemma {:induction false} HeededHear(calls: seq<Call>, hears: Hearing, i: nat)
    ensures HearsIts(calls, Heeded(calls, hears), hears, i)
  {
    if calls == [] {
    } else {
      var was, c := calls[..|calls| - 1], calls[|calls| - 1];
      assert calls == was + [c];
      HeededHear(was, hears, i);
      HeededSnoc(was, c, hears);
      HearsOneMore(was, Heeded(was, hears), hears, i, c);
    }
  }

  lemma HearsOneMore(calls: seq<Call>, heeded: seq<Call>, hears: Hearing, i: nat, c: Call)
    requires HearsIts(calls, heeded, hears, i)
    ensures HearsIts(calls + [c], if Heeds(hears, c) then heeded + [c] else heeded, hears, i)
  {
    HearSnoc(calls, c, i);
    HearSnoc(heeded, c, i);
    if Heeds(hears, c) { HeedsSet(hears, c, i); } else { HeedsBytes(hears, c, i); }
  }

  lemma HeedsSet(hears: Hearing, c: Call, i: nat)
    requires Heeds(hears, c)
    ensures OnStdout !in hears(i) ==> Chunk(c, i, Out) == []
    ensures OnStderr !in hears(i) ==> Chunk(c, i, Err) == []
    ensures OnExit !in hears(i) ==> !ExitFor(c, i)
    ensures OnTimeout !in hears(i) ==> !(c.puppy == i && c.what.Timeout?)
  {}

  lemma HeedsBytes(hears: Hearing, c: Call, i: nat)
    requires !Heeds(hears, c)
    ensures OnStdout in hears(i) ==> Chunk(c, i, Out) == []
    ensures OnStderr in hears(i) ==> Chunk(c, i, Err) == []
    ensures OnExit in hears(i) ==> !ExitFor(c, i)
    ensures OnTimeout in hears(i) ==> !(c.puppy == i && c.what.Timeout?)
  {}

  lemma HearSnoc(calls: seq<Call>, c: Call, i: nat)
    ensures BytesHeard(calls + [c], i, Out) == BytesHeard(calls, i, Out) + Chunk(c, i, Out)
    ensures BytesHeard(calls + [c], i, Err) == BytesHeard(calls, i, Err) + Chunk(c, i, Err)
    ensures ExitsHeard(calls + [c], i) == ExitsHeard(calls, i) + Ones(ExitFor(c, i))
    ensures TimeoutsHeard(calls + [c], i) == TimeoutsHeard(calls, i) + Ones(c.puppy == i && c.what.Timeout?)
  {
    HeardSnoc(calls, c, i, Out);
    HeardSnoc(calls, c, i, Err);
    TimeoutSnoc(calls, c, i);
  }

  lemma TimeoutSnoc(calls: seq<Call>, c: Call, i: nat)
    ensures TimeoutsHeard(calls + [c], i) == TimeoutsHeard(calls, i) + Ones(c.puppy == i && c.what.Timeout?)
  {
    assert (calls + [c])[..|calls|] == calls;
  }

  /** The object has the table of `j`, with each process's own listeners, and has made those
      calls of `j` that they heed. */
  ghost predicate Follows(java: DoryPuppy, j: Java, hears: Hearing)
    reads java, java.processList.Values
  {
    && java.View().table == j.table && java.calls == Heeded(j.calls, hears)
    && forall pid :: pid in java.processList ==> java.processList[pid].listeners == hears(java.processList[pid].id)
  }

  lemma ListedAs(java: DoryPuppy, j: Java, pid: int)
    requires java.View().table == j.table
    ensures (pid in java.processList <==> pid in j.table) &&
            (pid in j.table ==> java.processList[pid].id == j.table[pid])
  {
    assert pid in java.View().table <==> pid in java.processList;
  }

  /** One effect, passed on by its listener closure. */
  method TellOne(java: DoryPuppy, pid: int, e: Emission, now: int, ghost j: Java, ghost hears: Hearing)
    requires Follows(java, j, hears)
    modifies java, java.processList.Values
    ensures java.processList.Values <= old(java.processList.Values)
    ensures Follows(java, if e.Exit? then j.Leave(pid, e) else j.Notify(pid, e), hears)
  {
    ListedAs(java, j, pid);
    if pid in j.table { HeededSnoc(j.calls, Call(j.table[pid], e), hears); }
    match e {
      case Stdout(bytes) => java.JniStdout(pid, bytes);
      case Stderr(bytes) => java.JniStderr(pid, bytes);
      case Exit(status, signal) => java.JniExit(pid, status, signal, now);
      case Timeout => java.JniTimeout(pid);
    }
  }

  /** The listener closures of DoryPuppy_spawn pass the effects of a callback on, one by one. */
  method Tell(java: DoryPuppy, pid: int, said: seq<Effect>, now: int, ghost j: Java, ghost hears: Hearing)
    requires Follows(java, j, hears)
    modifies java, java.processList.Values
    ensures java.processList.Values <= old(java.processList.Values)
    ensures Follows(java, Heard(j, pid, said), hears)
  {
    var m := 0;
    while m < |said|
      invariant 0 <= m <= |said|
      invariant java.processList.Values <= old(java.processList.Values)
      invariant Follows(java, Heard(j, pid, said[..m]), hears)
    {
      assert said[..m + 1][..m] == said[..m];
      if said[m].Emit? {
        TellOne(java, pid, said[m].emission, now, Heard(j, pid, said[..m]), hears);
      }
      m := m + 1;
    }
    assert said[..|said|] == said;
  }

  /** Both pid tables follow the transition system through any run, whatever listeners are
      set: the listeners that are set hear exactly what the delivery theorems say. */
  method PlayTables(acts: seq<Act>, hears: Hearing) returns (java: DoryPuppy, native: NativeTable)
    requires Possible(acts)
    ensures native.View() == StateAfter(acts).native && Follows(java, StateAfter(acts).java, hears)
  {
    java := new DoryPuppy();
    native := new NativeTable();
    var s, k := START, 0;
    while k < |acts|
      invariant 0 <= k <= |acts| && fresh(java) && fresh(native) && fresh(java.processList.Values)
      invariant s == StateAfter(acts[..k]) && native.View() == s.native && Follows(java, s.java, hears)
    {
      NextAct(acts, k);
      MoveTables(java, native, s, acts[k], k, hears);
      s := Step(s, acts[k]);
      k := k + 1;
    }
    assert acts[..|acts|] == acts;
  }

  lemma NextAct(acts: seq<Act>, k: nat)
    requires Possible(acts) && k < |acts|
    ensures var s := StateAfter(acts[..k]);
            BaseOk(s) && Enabled(s, acts[k]) && StateAfter(acts[..k + 1]) == Step(s, acts[k])
  {
    PossiblePrefix(acts, k + 1);
    assert acts[..k + 1][..k] == acts[..k];
    BaseReachable(acts[..k]);
  }

  lemma {:induction false} PossiblePrefix(acts: seq<Act>, k: nat)
    requires Possible(acts) && k <= |acts|
    ensures Possible(acts[..k])
  {
    if k == |acts| {
      assert acts[..k] == acts;
    } else {
      PossiblePrefix(acts[..|acts| - 1], k);
      assert acts[..|acts| - 1][..k] == acts[..k];
    }
  }

  /** A new DoryProcess with its listeners enters the Java table. */
  method RegisterNew(java: DoryPuppy, pid: int, i: nat, ghost j: Java, hears: Hearing)
    requires Follows(java, j, hears) && pid > 0
    modifies java
    ensures fresh(java.processList.Values - old(java.processList.Values))
    ensures Follows(java, j.Register(pid, i), hears)
  {
    var puppy := new DoryProcess(i);
    puppy.listeners := hears(i);
    var thrown := java.PuppySpawn(pid, puppy);
  }

  /** One action of the system on the two table objects. */
  method MoveTables(java: DoryPuppy, native: NativeTable, s: Sys, a: Act, now: int, hears: Hearing)
    requires BaseOk(s) && Enabled(s, a) && Follows(java, s.java, hears) && native.View() == s.native
    modifies java, native, java.processList.Values
    ensures fresh(java.processList.Values - old(java.processList.Values))
    ensures Follows(java, Step(s, a).java, hears) && native.View() == Step(s, a).native
  {
    match a {
      case Create(_, _, _) =>
      case Spawn(_, _) =>
      case PutNative(i) => native.Insert(s.procs[i].child.pid, i);
      case PutJava(i) =>
        assert ProcOk(s.procs[i]);
        RegisterNew(java, s.procs[i].child.pid, i, s.java, hears);
      case Callback(i, ev) => Tell(java, s.procs[i].child.pid, Effects(s.procs[i].child, ev), now, s.java, hears);
      case Erase => native.Erase(s.procs[s.turn.proc].child.pid);
      case Signal(pid, signal) => native.Kill(pid, signal);
    }
  }
}
