/** What the Java listeners of one process hear over a whole run. */
module Delivery {
  import opened Spawn
  import opened SpawnRuns
  import opened Tables
  import opened System

  /** The bytes of a stream that an emission carries. */
  function BytesOf(e: Emission, st: Stream): seq<byte> {
    if st == Out && e.Stdout? then e.bytes
    else if st == Err && e.Stderr? then e.bytes
    else []
  }

  /** What the calls tell the listeners of process `i`: the bytes of a stream, and how
      often that it has exited. */
  function BytesHeard(calls: seq<Call>, i: nat, st: Stream): seq<byte> {
    if calls == [] then []
    else BytesHeard(calls[..|calls| - 1], i, st) + Chunk(calls[|calls| - 1], i, st)
  }

  function Chunk(c: Call, i: nat, st: Stream): seq<byte> {
    if c.puppy == i then BytesOf(c.what, st) else []
  }

  function ExitsHeard(calls: seq<Call>, i: nat): nat {
    if calls == [] then 0
    else ExitsHeard(calls[..|calls| - 1], i) + Ones(ExitFor(calls[|calls| - 1], i))
  }

  predicate ExitFor(c: Call, i: nat) { c.puppy == i && c.what.Exit? }

  /** The bytes that an action reads from a stream of process `i`. */
  function ReadNow(a: Act, i: nat, st: Stream): seq<byte> {
    if a.Callback? && a.proc == i && a.event.ReadCb? && a.event.stream == st && a.event.result.Data?
    then a.event.result.bytes else []
  }

  function BytesRead(acts: seq<Act>, i: nat, st: Stream): seq<byte> {
    if acts == [] then []
    else BytesRead(acts[..|acts| - 1], i, st) + ReadNow(acts[|acts| - 1], i, st)
  }

  /** Those that are read while the process is in the Java table. */
  ghost function BytesListed(acts: seq<Act>, i: nat, st: Stream): seq<byte> {
    if acts == [] then []
    else
      BytesListed(acts[..|acts| - 1], i, st) +
      if IsListed(StateAfter(acts[..|acts| - 1]), i) then ReadNow(acts[|acts| - 1], i, st) else []
  }

  /** Those that are read before the exit step. */
  ghost function BytesBeforeExit(acts: seq<Act>, i: nat, st: Stream): seq<byte> {
    if acts == [] then []
    else
      BytesBeforeExit(acts[..|acts| - 1], i, st) +
      if HasGone(StateAfter(acts[..|acts| - 1]), i) then [] else ReadNow(acts[|acts| - 1], i, st)
  }

  predicate IsListed(s: Sys, i: nat) { i in s.procs && ListedJava(s.procs[i]) }

  predicate HasGone(s: Sys, i: nat) { i in s.procs && Gone(s.procs[i]) }

  /** After the exit listener of `i` no listener of `i` is called. */
  ghost predicate SilentAfterExit(calls: seq<Call>, i: nat) {
    forall a, b :: 0 <= a < b < |calls| && ExitFor(calls[a], i) ==> calls[b].puppy != i
  }

  ghost predicate NoneFor(calls: seq<Call>, i: nat) {
    forall k :: 0 <= k < |calls| ==> calls[k].puppy != i
  }

  /** The exit listener of `i` was told these. */
  ghost predicate ExitsAre(calls: seq<Call>, i: nat, status: int, signal: int) {
    forall k :: 0 <= k < |calls| && ExitFor(calls[k], i) ==> calls[k].what == Exit(status, signal)
  }

  // ----- sequences of calls

  lemma HeardSnoc(calls: seq<Call>, c: Call, i: nat, st: Stream)
    ensures BytesHeard(calls + [c], i, st) == BytesHeard(calls, i, st) + Chunk(c, i, st)
    ensures ExitsHeard(calls + [c], i) == ExitsHeard(calls, i) + Ones(ExitFor(c, i))
  {
    assert (calls + [c])[..|calls|] == calls;
  }

  lemma {:induction false} BytesMore(calls: seq<Call>, more: seq<Call>, i: nat, st: Stream)
    ensures BytesHeard(calls + more, i, st) == BytesHeard(calls, i, st) + BytesHeard(more, i, st)
  {
    if more == [] {
      assert calls + more == calls;
    } else {
      var was, c := more[..|more| - 1], more[|more| - 1];
      assert more == was + [c] && calls + more == calls + was + [c];
      BytesMore(calls, was, i, st);
      HeardSnoc(calls + was, c, i, st);
      HeardSnoc(was, c, i, st);
      Assoc(BytesHeard(calls, i, st), BytesHeard(was, i, st), Chunk(c, i, st));
    }
  }

  lemma Assoc(a: seq<byte>, b: seq<byte>, c: seq<byte>)
    ensures a + b + c == a + (b + c)
  {}

  lemma {:induction false} ExitsMore(calls: seq<Call>, more: seq<Call>, i: nat)
    ensures ExitsHeard(calls + more, i) == ExitsHeard(calls, i) + ExitsHeard(more, i)
  {
    if more == [] {
      assert calls + more == calls;
    } else {
      var was, c := more[..|more| - 1], more[|more| - 1];
      assert more == was + [c] && calls + more == calls + was + [c];
      ExitsMore(calls, was, i);
      HeardSnoc(calls + was, c, i, Err);
      HeardSnoc(was, c, i, Err);
    }
  }

  lemma {:induction false} NoExitHeard(calls: seq<Call>, i: nat)
    ensures ExitsHeard(calls, i) == 0 <==> forall k :: 0 <= k < |calls| ==> !ExitFor(calls[k], i)
  {
    if calls == [] {
    } else {
      var was := calls[..|calls| - 1];
      NoExitHeard(was, i);
      assert forall k :: 0 <= k < |was| ==> was[k] == calls[k];
    }
  }

  lemma {:induction false} HearsNothing(calls: seq<Call>, i: nat, st: Stream)
    requires NoneFor(calls, i)
    ensures BytesHeard(calls, i, st) == [] && ExitsHeard(calls, i) == 0
  {
    if calls == [] {
    } else {
      HearsNothing(calls[..|calls| - 1], i, st);
    }
  }

  lemma SilentMore(calls: seq<Call>, more: seq<Call>, i: nat)
    requires SilentAfterExit(calls, i) && SilentAfterExit(more, i)
    requires ExitsHeard(calls, i) == 0 || NoneFor(more, i)
    ensures SilentAfterExit(calls + more, i)
  {
    NoExitHeard(calls, i);
  }

  // ----- the calls of one callback

  /** The calls that effects cause for a process in the table. */
  function Told(i: nat, said: seq<Effect>): seq<Call> {
    if said == [] then []
    else Told(i, said[..|said| - 1]) + if said[|said| - 1].Emit? then [Call(i, said[|said| - 1].emission)] else []
  }

  lemma {:induction false} Unheard(j: Java, pid: int, said: seq<Effect>)
    requires pid !in j.table
    ensures Heard(j, pid, said).calls == j.calls && pid !in Heard(j, pid, said).table
  {
    if said == [] {
    } else {
      Unheard(j, pid, said[..|said| - 1]);
    }
  }

  /** "exit" can only be the last of the effects of a callback. */
  predicate ExitLast(said: seq<Effect>) {
    forall k :: 0 <= k < |said| - 1 ==> !IsExit(said[k])
  }

  lemma ExitComesLast(c: Child, ev: Event)
    ensures ExitLast(Effects(c, ev))
  {}

  lemma {:induction false} HeardInTable(j: Java, pid: int, said: seq<Effect>)
    requires pid in j.table && ExitLast(said)
    ensures Heard(j, pid, said).calls == j.calls + Told(j.table[pid], said)
  {
    if said == [] {
    } else {
      var was := said[..|said| - 1];
      HeardInTable(j, pid, was);
      HeardTable(j, pid, was);
      assert forall k :: 0 <= k < |was| ==> was[k] == said[k];
    }
  }

  lemma {:induction false} ToldTo(i: nat, said: seq<Effect>)
    ensures |Told(i, said)| <= |said| && forall k :: 0 <= k < |Told(i, said)| ==> Told(i, said)[k].puppy == i
  {
    if said == [] {
    } else {
      ToldTo(i, said[..|said| - 1]);
    }
  }

  /** At most one emission, and perhaps a signal with it. */
  predicate OneSaid(said: seq<Effect>) {
    |said| <= 2 && (|said| == 2 ==> said[0].Kill? != said[1].Kill?)
  }

  lemma ToldTwo(i: nat, e: Effect, f: Effect)
    requires e.Kill? != f.Kill?
    ensures Told(i, [e, f]) == Told(i, [if e.Kill? then f else e])
  {
    assert [e, f][..1] == [e] && [e][..0] == [] && [f][..0] == [];
  }

  /** The effect that matters to the listeners. */
  lemma TheOne(i: nat, said: seq<Effect>) returns (e: Effect)
    requires OneSaid(said) && said != []
    ensures e in said && Told(i, said) == Told(i, [e]) && (Leaves(said) <==> IsExit(e))
    ensures e.Kill? ==> forall f :: f in said ==> f.Kill?
  {
    if |said| == 1 {
      e := said[0];
      assert said == [e];
    } else {
      e := if said[0].Kill? then said[1] else said[0];
      assert said == [said[0], said[1]] && e in said;
      ToldTwo(i, said[0], said[1]);
    }
  }

  function SaidBytes(e: Effect, st: Stream): seq<byte> {
    if e.Emit? then BytesOf(e.emission, st) else []
  }

  lemma ToldOne(i: nat, e: Effect, st: Stream)
    ensures Told(i, [e]) == if e.Emit? then [Call(i, e.emission)] else []
    ensures BytesHeard(Told(i, [e]), i, st) == SaidBytes(e, st)
    ensures ExitsHeard(Told(i, [e]), i) == Ones(IsExit(e))
  {
    assert [e][..0] == [] && Told(i, []) == [];
    if e.Emit? {
      HeardSnoc([], Call(i, e.emission), i, st);
      assert Told(i, [e]) == [] + [Call(i, e.emission)];
    }
  }

  /** The one emission carries `now`; without one, nothing. */
  ghost predicate Says(said: seq<Effect>, now: seq<byte>, st: Stream) {
    OneSaid(said) && (forall e :: e in said && e.Emit? ==> SaidBytes(e, st) == now) &&
    ((forall e :: e in said ==> e.Kill?) ==> now == [])
  }

  /** The emission of a callback is the chunk just read, if one was read. */
  lemma CallbackSays(c: Child, i: nat, ev: Event, st: Stream)
    ensures Says(Effects(c, ev), ReadNow(Callback(i, ev), i, st), st)
  {
    var said := Effects(c, ev);
    if ev.ReadCb? && ev.result.Data? { assert said[0] in said && said[0].Emit?; }
  }

  lemma ExitSays(c: Child, ev: Event, e: Effect)
    requires e in Effects(c, ev) && IsExit(e)
    ensures var d := c.Step(ev); d.exited && e.emission == Exit(d.exitStatus, d.termSignal)
  {
    StepFlags(c, ev);
  }

  /** What effects with a single emission tell. */
  lemma ToldSaid(i: nat, said: seq<Effect>, now: seq<byte>, st: Stream)
    requires Says(said, now, st)
    ensures BytesHeard(Told(i, said), i, st) == now && ExitsHeard(Told(i, said), i) == Ones(Leaves(said))
  {
    if said != [] {
      var e := TheOne(i, said);
      ToldOne(i, e, st);
    }
  }

  /** What one callback tells its own listeners: the chunk just read, or the exit if it is
      due. */
  lemma OwnTold(c: Child, i: nat, ev: Event, st: Stream)
    ensures var told := Told(i, Effects(c, ev));
            BytesHeard(told, i, st) == ReadNow(Callback(i, ev), i, st) &&
            ExitsHeard(told, i) == Ones(Leaves(Effects(c, ev)))
  {
    CallbackSays(c, i, ev, st);
    ToldSaid(i, Effects(c, ev), ReadNow(Callback(i, ev), i, st), st);
  }

  lemma ExitSaid(i: nat, said: seq<Effect>, status: int, signal: int)
    requires OneSaid(said) && forall e :: e in said && IsExit(e) ==> e.emission == Exit(status, signal)
    ensures SilentAfterExit(Told(i, said), i) && ExitsAre(Told(i, said), i, status, signal)
  {
    if said != [] {
      var e := TheOne(i, said);
      ToldOne(i, e, Out);
      ExitOne(i, e, status, signal);
    }
  }

  lemma ExitOne(i: nat, e: Effect, status: int, signal: int)
    requires IsExit(e) ==> e.emission == Exit(status, signal)
    ensures var told := if e.Emit? then [Call(i, e.emission)] else [];
            SilentAfterExit(told, i) && ExitsAre(told, i, status, signal)
  {}

  /** Nothing follows that in the same callback, and an exit carries what the child has
      saved. */
  lemma OwnExit(c: Child, i: nat, ev: Event, d: Child)
    requires d == c.Step(ev)
    ensures SilentAfterExit(Told(i, Effects(c, ev)), i)
    ensures ExitsAre(Told(i, Effects(c, ev)), i, d.exitStatus, d.termSignal)
  {
    CallbackSays(c, i, ev, Out);
    forall e | e in Effects(c, ev) && IsExit(e) ensures e.emission == Exit(d.exitStatus, d.termSignal) {
      ExitSays(c, ev, e);
    }
    ExitSaid(i, Effects(c, ev), d.exitStatus, d.termSignal);
  }

  /** The calls a callback makes: those its effects cause for whatever is listed under
      the pid of its process. */
  lemma CallsMade(s: Sys, j: nat, ev: Event) returns (more: seq<Call>)
    requires Enabled(s, Callback(j, ev))
    ensures Step(s, Callback(j, ev)).java.calls == s.java.calls + more
    ensures var pid := s.procs[j].child.pid;
            more == if pid in s.java.table then Told(s.java.table[pid], Effects(s.procs[j].child, ev)) else []
  {
    var c, said := s.procs[j].child, Effects(s.procs[j].child, ev);
    if c.pid in s.java.table {
      more := Told(s.java.table[c.pid], said);
      ExitComesLast(c, ev);
      HeardInTable(s.java, c.pid, said);
    } else {
      more := [];
      Unheard(s.java, c.pid, said);
    }
  }

  /** A child that has not started has no callback but that of its timer. */
  lemma OnlyTimer(c: Child, ev: Event)
    requires Inv(c) && c.Enabled(ev) && !ev.CallSpawn?
    ensures !c.started ==> ev.TimerCb?
  {}

  lemma TimeoutTold(i: nat, c: Child)
    ensures Told(i, Effects(c, TimerCb)) == [Call(i, Timeout)]
  {
    ToldTwo(i, Emit(Timeout), Kill(SIGKILL));
    ToldOne(i, Emit(Timeout), Out);
  }

  /** However pids are given out: a callback of process `j` reaches the listeners of another
      process `i` exactly if `i` is listed under the pid that `j` has too, or that its unset
      pid field happens to hold; and then with all it has to tell. */
  lemma Misdelivered(s: Sys, j: nat, ev: Event, i: nat) returns (more: seq<Call>)
    requires BaseOk(s) && Enabled(s, Callback(j, ev)) && i != j
    ensures Step(s, Callback(j, ev)).java.calls == s.java.calls + more
    ensures if InJavaTable(s, i) && s.procs[j].child.pid == s.procs[i].child.pid
            then more == Told(i, Effects(s.procs[j].child, ev))
            else NoneFor(more, i)
  {
    var c := s.procs[j].child;
    more := CallsMade(s, j, ev);
    if c.pid in s.java.table {
      var k := s.java.table[c.pid];
      assert Owned(s, k, c.pid);
      ToldTo(k, Effects(c, ev));
    }
  }

  /** If the pid of `i` is kept, that is the timer of a child that never started; it calls
      the timeout listener once. */
  lemma Borrowed(s: Sys, j: nat, ev: Event, i: nat) returns (more: seq<Call>)
    requires BaseOk(s) && OwnOk(s, i) && Enabled(s, Callback(j, ev)) && i != j
    ensures Step(s, Callback(j, ev)).java.calls == s.java.calls + more
    ensures var c, table := s.procs[j].child, s.java.table;
            if ev.TimerCb? && !c.started && c.pid in table && table[c.pid] == i then more == [Call(i, Timeout)]
            else NoneFor(more, i)
  {
    var c := s.procs[j].child;
    more := Misdelivered(s, j, ev, i);
    assert ProcOk(s.procs[j]);
    if InJavaTable(s, i) && c.pid == s.procs[i].child.pid {
      assert Owned(s, i, c.pid) && ListingOk(s, i);
      CallbackMoves(c, ev);
      OnlyTimer(c, ev);
      TimeoutTold(i, c);
    } else if c.pid in s.java.table {
      assert Owned(s, s.java.table[c.pid], c.pid);
    }
  }

  /** A callback of process `i` itself reaches its listeners exactly if it is listed. */
  lemma OwnCalls(s: Sys, i: nat, ev: Event) returns (more: seq<Call>)
    requires BaseOk(s) && OwnOk(s, i) && Enabled(s, Callback(i, ev))
    ensures Step(s, Callback(i, ev)).java.calls == s.java.calls + more
    ensures if IsListed(s, i) then more == Told(i, Effects(s.procs[i].child, ev)) else NoneFor(more, i)
  {
    var c := s.procs[i].child;
    assert ListingOk(s, i);
    more := CallsMade(s, i, ev);
    if c.pid in s.java.table {
      ToldTo(s.java.table[c.pid], Effects(c, ev));
    }
  }

  /** Which listener that is, and what it is told. */
  lemma OwnCallIs(s: Sys, i: nat, ev: Event)
    requires BaseOk(s) && OwnOk(s, i) && Enabled(s, Callback(i, ev)) && IsListed(s, i)
    ensures var calls, now := s.java.calls, Step(s, Callback(i, ev)).java.calls;
            (ev.TimerCb? ==> now == calls + [Call(i, Timeout)]) &&
            (ev.ExitCb? && s.procs[i].child.stderrFlushed ==> now == calls + [Call(i, Exit(ev.status, ev.signal))]) &&
            (ev.ReadCb? && ev.result.Data? && ev.stream == Out ==> now == calls + [Call(i, Stdout(ev.result.bytes))]) &&
            (ev.ReadCb? && ev.result.Data? && ev.stream == Err ==> now == calls + [Call(i, Stderr(ev.result.bytes))])
  {
    var said := Effects(s.procs[i].child, ev);
    var more := OwnCalls(s, i, ev);
    if ev.TimerCb? {
      TimeoutTold(i, s.procs[i].child);
    } else if |said| == 1 {
      ToldOne(i, said[0], Out);
      assert said == [said[0]];
    }
  }

  // ----- the invariant of deliveries

  /** The listeners of `i` have heard exactly the bytes read while it was listed, and once
      of its exit if it was listed then, with the right status; and nothing after that. */
  ghost predicate Delivered(s: Sys, acts: seq<Act>, i: nat) {
    var calls := s.java.calls;
    && BytesHeard(calls, i, Out) == BytesListed(acts, i, Out)
    && BytesHeard(calls, i, Err) == BytesListed(acts, i, Err)
    && ExitsDelivered(s, i)
  }

  ghost predicate ExitsDelivered(s: Sys, i: nat) {
    var calls := s.java.calls;
    && ExitsHeard(calls, i) == Ones(i in s.procs && s.procs[i].left == At(InJava))
    && SilentAfterExit(calls, i)
    && (HasGone(s, i) ==> ExitsAre(calls, i, s.procs[i].child.exitStatus, s.procs[i].child.termSignal))
  }

  /** What the calls of one action do to the record of process `i`. */
  ghost predicate Adds(s: Sys, a: Act, t: Sys, more: seq<Call>, i: nat)
  {
    var listed := IsListed(s, i);
    && t.java.calls == s.java.calls + more
    && BytesHeard(more, i, Out) == (if listed then ReadNow(a, i, Out) else [])
    && BytesHeard(more, i, Err) == (if listed then ReadNow(a, i, Err) else [])
    && SilentAfterExit(more, i) && (!listed ==> NoneFor(more, i))
    && (HasGone(t, i) ==> ExitsAre(more, i, t.procs[i].child.exitStatus, t.procs[i].child.termSignal))
    && ExitsHeard(more, i) == Ones(listed && !HasGone(s, i) && HasGone(t, i))
  }

  /** A callback of process `i` itself. */
  lemma OwnCallback(s: Sys, i: nat, ev: Event) returns (more: seq<Call>)
    requires BaseOk(s) && OwnOk(s, i) && Enabled(s, Callback(i, ev))
    ensures Adds(s, Callback(i, ev), Step(s, Callback(i, ev)), more, i)
  {
    more := OwnCalls(s, i, ev);
    GoneNow(s, i, ev);
    if IsListed(s, i) {
      OwnTold(s.procs[i].child, i, ev, Out);
      OwnTold(s.procs[i].child, i, ev, Err);
      OwnExit(s.procs[i].child, i, ev, s.procs[i].child.Step(ev));
    } else {
      HearsNothing(more, i, Out);
      HearsNothing(more, i, Err);
    }
  }

  /** The exit step is a callback that emits "exit", and there is no second one. */
  lemma GoneNow(s: Sys, i: nat, ev: Event)
    requires BaseOk(s) && Enabled(s, Callback(i, ev))
    ensures var t, leaves := Step(s, Callback(i, ev)), Leaves(Effects(s.procs[i].child, ev));
            HasGone(t, i) == (HasGone(s, i) || leaves) && !(HasGone(s, i) && leaves) &&
            t.procs[i].child == s.procs[i].child.Step(ev)
  {
    assert ProcOk(s.procs[i]);
    CallbackMoves(s.procs[i].child, ev);
  }

  /** A callback of another process. */
  lemma OtherCallback(s: Sys, j: nat, ev: Event, i: nat) returns (more: seq<Call>)
    requires BaseOk(s) && OwnOk(s, i) && Enabled(s, Callback(j, ev)) && i != j
    ensures Adds(s, Callback(j, ev), Step(s, Callback(j, ev)), more, i)
  {
    more := Borrowed(s, j, ev, i);
    if NoneFor(more, i) {
      HearsNothing(more, i, Out);
      HearsNothing(more, i, Err);
    } else {
      assert InJavaTable(s, i) by { assert Owned(s, i, s.procs[j].child.pid); }
      assert ListingOk(s, i);
      OnlyTimeout(i);
    }
    AddsNothing(s, Callback(j, ev), Step(s, Callback(j, ev)), more, i);
  }

  lemma AddsNothing(s: Sys, a: Act, t: Sys, more: seq<Call>, i: nat)
    requires t.java.calls == s.java.calls + more && HasGone(t, i) == HasGone(s, i)
    requires ReadNow(a, i, Out) == [] && ReadNow(a, i, Err) == []
    requires BytesHeard(more, i, Out) == [] && BytesHeard(more, i, Err) == [] && ExitsHeard(more, i) == 0
    requires NoneFor(more, i) || (IsListed(s, i) && |more| == 1)
    ensures Adds(s, a, t, more, i)
  {
    NoExitHeard(more, i);
  }

  lemma OnlyTimeout(i: nat)
    ensures var more := [Call(i, Timeout)];
            BytesHeard(more, i, Out) == [] && BytesHeard(more, i, Err) == [] && ExitsHeard(more, i) == 0
  {
    HeardSnoc([], Call(i, Timeout), i, Out);
    HeardSnoc([], Call(i, Timeout), i, Err);
    assert [Call(i, Timeout)] == [] + [Call(i, Timeout)];
  }

  /** The saved status and signal do not change after the exit step. */
  lemma StatusStays(s: Sys, a: Act, i: nat)
    requires BaseOk(s) && Enabled(s, a) && HasGone(s, i)
    ensures var c, d := s.procs[i].child, Step(s, a).procs[i].child;
            HasGone(Step(s, a), i) && d.exitStatus == c.exitStatus && d.termSignal == c.termSignal
    ensures s.procs[i].left == Step(s, a).procs[i].left
  {
    assert ProcOk(s.procs[i]);
    LeftStays(s, a, i);
    ExitedStays(s, a, i);
  }

  /** A record of deliveries goes on. */
  lemma DeliveredMore(s: Sys, acts: seq<Act>, a: Act, more: seq<Call>, i: nat)
    requires BaseOk(s) && OwnOk(s, i) && Enabled(s, a) && Delivered(s, acts, i) && s == StateAfter(acts)
    requires Adds(s, a, Step(s, a), more, i) && LeftWhere(s, Step(s, a), i)
    ensures Delivered(Step(s, a), acts + [a], i)
  {
    BytesGoOn(acts, a, s.java.calls, more, i, Out);
    BytesGoOn(acts, a, s.java.calls, more, i, Err);
    ExitsGoOn(s, a, Step(s, a), more, i);
  }

  lemma BytesGoOn(acts: seq<Act>, a: Act, calls: seq<Call>, more: seq<Call>, i: nat, st: Stream)
    requires BytesHeard(calls, i, st) == BytesListed(acts, i, st)
    requires BytesHeard(more, i, st) == if IsListed(StateAfter(acts), i) then ReadNow(a, i, st) else []
    ensures BytesHeard(calls + more, i, st) == BytesListed(acts + [a], i, st)
  {
    assert (acts + [a])[..|acts|] == acts;
    BytesMore(calls, more, i, st);
  }

  lemma ExitsGoOn(s: Sys, a: Act, t: Sys, more: seq<Call>, i: nat)
    requires BaseOk(s) && OwnOk(s, i) && Enabled(s, a) && t == Step(s, a) && Adds(s, a, t, more, i) &&
             LeftWhere(s, t, i)
    requires ExitsDelivered(s, i)
    ensures ExitsDelivered(t, i)
  {
    ExitsMore(s.java.calls, more, i);
    SilentMore(s.java.calls, more, i);
    NoExitHeard(s.java.calls, i);
    if HasGone(s, i) { StatusStays(s, a, i); }
  }

  /** If the exit step was just taken, it was taken where the thread then was. */
  ghost predicate LeftWhere(s: Sys, t: Sys, i: nat) {
    && (HasGone(t, i) && !HasGone(s, i) ==> i in s.procs && t.procs[i].left == At(s.procs[i].pc))
    && (HasGone(s, i) ==> HasGone(t, i) && t.procs[i].left == s.procs[i].left)
  }

  /** Any other action tells the listeners nothing. */
  lemma NotTold(s: Sys, a: Act, i: nat)
    requires BaseOk(s) && Enabled(s, a) && !a.Callback?
    ensures Adds(s, a, Step(s, a), [], i)
  {
    assert Step(s, a).java.calls == s.java.calls + [];
    NotGone(s, a, i);
  }

  lemma NotGone(s: Sys, a: Act, i: nat)
    requires Enabled(s, a) && !a.Callback?
    ensures HasGone(Step(s, a), i) == HasGone(s, i)
  {}

  lemma ExitStep(s: Sys, a: Act, i: nat)
    requires BaseOk(s) && Enabled(s, a)
    ensures LeftWhere(s, Step(s, a), i)
  {
    if HasGone(s, i) {
      StatusStays(s, a, i);
    } else if !a.Callback? {
      NotGone(s, a, i);
    } else {
      GoneNow(s, a.proc, a.event);
    }
  }

  lemma DeliveredStep(s: Sys, acts: seq<Act>, a: Act, i: nat)
    requires BaseOk(s) && OwnOk(s, i) && Enabled(s, a) && Delivered(s, acts, i) && s == StateAfter(acts)
    ensures Delivered(Step(s, a), acts + [a], i)
  {
    var more: seq<Call> := [];
    ExitStep(s, a, i);
    if !a.Callback? {
      NotTold(s, a, i);
    } else if a.proc == i {
      more := OwnCallback(s, i, a.event);
    } else {
      more := OtherCallback(s, a.proc, a.event, i);
    }
    DeliveredMore(s, acts, a, more, i);
  }

  /** On every run, in any order of inserts and events: the listeners of a process heard
      exactly the bytes read while it was in the Java table, in order; its exit listener
      was called exactly if the exit step came after the insert, once, with the status and
      signal saved; and none of its listeners was called after that. */
  lemma {:induction false} Deliveries(acts: seq<Act>, i: nat)
    requires Possible(acts) && PidKept(acts, i)
    ensures Delivered(StateAfter(acts), acts, i)
  {
    if acts == [] {
    } else {
      var was, a := acts[..|acts| - 1], acts[|acts| - 1];
      assert acts == was + [a];
      OwnReachable(was, i);
      Deliveries(was, i);
      DeliveredStep(StateAfter(was), was, a, i);
    }
  }

  // ----- processes registered in time

  /** Process `i` was in the Java table before its first callback. */
  ghost predicate RegisteredFirst(acts: seq<Act>, i: nat) {
    acts == [] ||
    (RegisteredFirst(acts[..|acts| - 1], i) &&
     var s, a := StateAfter(acts[..|acts| - 1]), acts[|acts| - 1];
     (a.Callback? && a.proc == i ==> i in s.procs && s.procs[i].pc == InJava))
  }

  /** Then its inserts came before its exit step. */
  lemma {:induction false} InsertedFirst(acts: seq<Act>, i: nat)
    requires Possible(acts) && RegisteredFirst(acts, i)
    ensures i in StateAfter(acts).procs ==> InsertsFirst(StateAfter(acts).procs[i])
  {
    if acts == [] {
    } else {
      var was, a := acts[..|acts| - 1], acts[|acts| - 1];
      var s := StateAfter(was);
      BaseReachable(was);
      InsertedFirst(was, i);
      ExitStep(s, a, i);
      if !a.Callback? { NotGone(s, a, i); }
    }
  }

  /** Before the exit step such a process hears every chunk; after it there are no stderr
      chunks left. */
  lemma ReadInTime(s: Sys, a: Act, i: nat)
    requires BaseOk(s) && Enabled(s, a)
    requires a.Callback? && a.proc == i ==> s.procs[i].pc == InJava && InsertsFirst(s.procs[i])
    ensures ReadNow(a, i, Out) == [] || (IsListed(s, i) <==> !HasGone(s, i))
    ensures ReadNow(a, i, Err) == [] || (IsListed(s, i) && !HasGone(s, i))
  {
    if a.Callback? && a.proc == i {
      assert ProcOk(s.procs[i]);
    }
  }

  lemma {:induction false} AllReadInTime(acts: seq<Act>, i: nat)
    requires Possible(acts) && RegisteredFirst(acts, i)
    ensures BytesListed(acts, i, Out) == BytesBeforeExit(acts, i, Out)
    ensures BytesListed(acts, i, Err) == BytesRead(acts, i, Err)
  {
    if acts == [] {
    } else {
      var was, a := acts[..|acts| - 1], acts[|acts| - 1];
      BaseReachable(was);
      InsertedFirst(was, i);
      AllReadInTime(was, i);
      ReadInTime(StateAfter(was), a, i);
    }
  }

  /** For a process registered before its first callback: its stderr listener got exactly
      the bytes that were read, its stdout listener those read before the exit step, and
      its exit listener was called exactly when "exit" was emitted, once. */
  lemma RegisteredDeliveries(acts: seq<Act>, i: nat)
    requires Possible(acts) && PidApart(acts, i) && RegisteredFirst(acts, i)
    ensures var s := StateAfter(acts); var calls := s.java.calls;
            BytesHeard(calls, i, Err) == BytesRead(acts, i, Err) &&
            BytesHeard(calls, i, Out) == BytesBeforeExit(acts, i, Out) &&
            ExitsHeard(calls, i) == Ones(HasGone(s, i)) && SilentAfterExit(calls, i)
  {
    InsertedFirst(acts, i);
    KeptIfFirst(acts, i);
    Deliveries(acts, i);
    AllReadInTime(acts, i);
  }

  /** The exit status that is saved, and so told, is the one the exit callback got. */
  lemma {:induction false} StatusOf(acts: seq<Act>, i: nat, m: nat, status: int, signal: int)
    requires Possible(acts) && m < |acts| && acts[m] == Callback(i, ExitCb(status, signal))
    ensures var s := StateAfter(acts);
            i in s.procs && s.procs[i].child.exited && s.procs[i].child.exitStatus == status &&
            s.procs[i].child.termSignal == signal
  {
    var was, a := acts[..|acts| - 1], acts[|acts| - 1];
    var s := StateAfter(was);
    BaseReachable(was);
    if m == |acts| - 1 {
      StepFlags(s.procs[i].child, a.event);
    } else {
      assert was[m] == acts[m];
      StatusOf(was, i, m, status, signal);
      ExitedStays(s, a, i);
    }
  }

  lemma ExitedStays(s: Sys, a: Act, i: nat)
    requires BaseOk(s) && Enabled(s, a) && i in s.procs && s.procs[i].child.exited
    ensures var c, d := s.procs[i].child, Step(s, a).procs[i].child;
            d.exited && d.exitStatus == c.exitStatus && d.termSignal == c.termSignal
  {
    assert ProcOk(s.procs[i]);
    if a.Callback? && a.proc == i { StepFlags(s.procs[i].child, a.event); }
  }

  /** Every call of the exit listener passes on what the exit callback was given. */
  lemma ExitTold(acts: seq<Act>, i: nat, m: nat, status: int, signal: int)
    requires Possible(acts) && PidKept(acts, i) && m < |acts| && acts[m] == Callback(i, ExitCb(status, signal))
    ensures ExitsAre(StateAfter(acts).java.calls, i, status, signal)
  {
    Deliveries(acts, i);
    StatusOf(acts, i, m, status, signal);
    NoExitHeard(StateAfter(acts).java.calls, i);
  }

  /** Without that order: a chunk is heard exactly if its process is registered by then,
      and is otherwise lost. */
  lemma ChunkHeardIff(s: Sys, i: nat, bytes: seq<byte>)
    requires BaseOk(s) && OwnOk(s, i) && Enabled(s, Callback(i, ReadCb(Err, Data(bytes))))
    ensures BytesHeard(Step(s, Callback(i, ReadCb(Err, Data(bytes)))).java.calls, i, Err) ==
            BytesHeard(s.java.calls, i, Err) + if s.procs[i].pc == InJava then bytes else []
  {
    var more := OwnCallback(s, i, ReadCb(Err, Data(bytes)));
    assert ProcOk(s.procs[i]);
    BytesMore(s.java.calls, more, i, Err);
  }
}
