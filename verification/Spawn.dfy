/** DoryProcessSpawn: one child process and the callbacks the event loop runs for it. */
module Spawn {

  newtype byte = x: int | 0 <= x < 0x100

  const SIGKILL := 9
  const SIGTERM := 15

  /** A libuv handle. uv_close must not be called twice; uv_is_closing stays true. */
  datatype Handle = Handle(inited: bool, closes: nat) {
    predicate IsClosing() { closes > 0 }

    function Close(): Handle { this.(closes := closes + 1) }
  }

  /** A pipe, whether it is being read, and whether libuv holds a buffer for it. */
  datatype Pipe = Pipe(handle: Handle, reading: bool, pending: bool)

  datatype Stream = Out | Err

  /** What a read callback is told: nread > 0, nread == 0, UV_EOF, or another error. */
  datatype ReadResult = Data(bytes: seq<byte>) | Again | Eof | Failed {
    predicate Ends() { Eof? || Failed? }
  }

  /** What the listeners get. */
  datatype Emission = Stdout(bytes: seq<byte>) | Stderr(bytes: seq<byte>) | Exit(status: int, signal: int) | Timeout

  datatype Effect = Emit(emission: Emission) | Kill(signal: int)

  /** Results of the three libuv calls in spawn(): uv_spawn, and uv_read_start twice.
      Zero is success. */
  datatype Outcome = Outcome(spawn: int, pid: int, readOut: int, readErr: int)

  /** One move of the program or of the loop. */
  datatype Event =
    | CallSpawn(outcome: Outcome)
    | TimerCb
    | ExitCb(status: int, signal: int)
    | AllocCb(stream: Stream)
    | ReadCb(stream: Stream, result: ReadResult)

  /** The fields of a DoryProcessSpawn, what it has done so far, and its buffers. */
  datatype Child = Child(
    timeout: nat, called: bool, started: bool, exited: bool, stderrFlushed: bool,
    pid: int, exitStatus: int, termSignal: int,
    process: Handle, timer: Handle, pipeOut: Pipe, pipeErr: Pipe,
    allocs: nat, frees: nat, log: seq<Effect>)
  {
    function PipeOf(s: Stream): Pipe { if s == Out then pipeOut else pipeErr }

    function WithPipe(s: Stream, p: Pipe): Child {
      if s == Out then this.(pipeOut := p) else this.(pipeErr := p)
    }

    function Do(e: Effect): Child { this.(log := log + [e]) }

    function ClosePipe(s: Stream): Child {
      var p := PipeOf(s);
      WithPipe(s, p.(handle := p.handle.Close()))
    }

    /** _clearTimer */
    function ClearTimer(): Child {
      if timer.IsClosing() then this else this.(timer := timer.Close())
    }

    /** spawn() */
    function OnSpawn(o: Outcome): Child {
      var c := if timeout > 0 then this.(called := true, timer := timer.(inited := true)) else this.(called := true);
      if o.spawn != 0 then c else c.(started := true, pid := o.pid).StartReading(o)
    }

    /** The part of spawn() after a successful uv_spawn. */
    function StartReading(o: Outcome): Child {
      if o.readOut != 0 then Do(Kill(SIGKILL))
      else
        var e := this.(pipeOut := pipeOut.(reading := true));
        if o.readErr != 0 then e.Do(Kill(SIGKILL))
        else e.(pipeErr := pipeErr.(reading := true))
    }

    /** The timer callback. */
    function OnTimer(): Child {
      ClearTimer().Do(Emit(Timeout)).Do(Kill(SIGKILL))
    }

    /** options.exit_cb */
    function OnExit(status: int, signal: int): Child {
      var c := if timer.inited then ClearTimer() else this;
      var d := c.(process := c.process.Close(), exited := true, termSignal := signal, exitStatus := status);
      if d.stderrFlushed then d.Do(Emit(Exit(status, signal))) else d
    }

    /** uvAllocCb */
    function OnAlloc(s: Stream): Child {
      WithPipe(s, PipeOf(s).(pending := true)).(allocs := allocs + 1)
    }

    function Freed(s: Stream): Child {
      WithPipe(s, PipeOf(s).(pending := false)).(frees := frees + 1)
    }

    /** The two read callbacks; they free the buffer in any case. */
    function OnRead(s: Stream, r: ReadResult): Child {
      var c := Freed(s);
      match r
      case Data(bytes) => c.Do(Emit(if s == Out then Stdout(bytes) else Stderr(bytes)))
      case Again => c
      case _ => if s == Out then c.OnStdoutEnd(r.Failed?) else c.OnStderrEnd(r.Failed?)
    }

    /** stdout has ended, or failed. */
    function OnStdoutEnd(failed: bool): Child {
      (if failed then Do(Kill(SIGTERM)) else this).ClosePipe(Out)
    }

    /** stderr has ended, or failed. */
    function OnStderrEnd(failed: bool): Child {
      var d := if failed then Do(Kill(SIGTERM)) else this;
      var e := d.ClosePipe(Err).(stderrFlushed := true);
      if e.exited then e.Do(Emit(Exit(e.exitStatus, e.termSignal))) else e
    }

    function Step(ev: Event): Child {
      match ev
      case CallSpawn(o) => OnSpawn(o)
      case TimerCb => OnTimer()
      case ExitCb(status, signal) => OnExit(status, signal)
      case AllocCb(s) => OnAlloc(s)
      case ReadCb(s, r) => OnRead(s, r)
    }

    /** What the environment keeps to: spawn() is called once, the exit callback comes at
        most once and only for a started process, no timer or read callback comes after
        uv_close of its handle, and a read callback gives back the buffer of its pipe. */
    predicate Enabled(ev: Event) {
      match ev
      case CallSpawn(_) => !called
      case TimerCb => timer.inited && !timer.IsClosing()
      case ExitCb(_, _) => started && !process.IsClosing()
      case AllocCb(s) => PipeOf(s).reading && !PipeOf(s).handle.IsClosing() && !PipeOf(s).pending
      case ReadCb(s, r) =>
        PipeOf(s).reading && !PipeOf(s).handle.IsClosing() && PipeOf(s).pending && (r.Data? ==> r.bytes != [])
    }
  }

  /** The constructor: the process and both pipes are set up, the timer is not. */
  function Fresh(timeout: nat, pid: int): Child {
    var open := Pipe(Handle(true, 0), false, false);
    Child(timeout, false, false, false, false, pid, 0, 0, Handle(true, 0), Handle(false, 0), open, open, 0, 0, [])
  }

  /** The same object with its fields updated in place, callback by callback. The ghost
      fields record what was done. */
  class DoryProcessSpawn {
    const timeout: nat
    var exited: bool
    var stderrFlushed: bool
    var pid: int
    var exitStatus: int
    var termSignal: int
    var process: Handle
    var timer: Handle
    var pipeOut: Pipe
    var pipeErr: Pipe
    ghost var called: bool
    ghost var started: bool
    ghost var allocs: nat
    ghost var frees: nat
    ghost var log: seq<Effect>

    ghost function View(): Child
      reads this
    {
      Child(timeout, called, started, exited, stderrFlushed, pid, exitStatus, termSignal,
            process, timer, pipeOut, pipeErr, allocs, frees, log)
    }

    constructor (timeout: nat)
      ensures View() == Fresh(timeout, pid)
    {
      this.timeout := timeout;
      exited, stderrFlushed, exitStatus, termSignal := false, false, 0, 0;
      process, timer := Handle(true, 0), Handle(false, 0);
      pipeOut, pipeErr := Pipe(Handle(true, 0), false, false), Pipe(Handle(true, 0), false, false);
      called, started, allocs, frees, log := false, false, 0, 0, [];
    }

    method EmitEvent(e: Emission)
      modifies this`log
      ensures log == old(log) + [Emit(e)]
    {
      log := log + [Emit(e)];
    }

    method SendSignal(signal: int)
      modifies this`log
      ensures log == old(log) + [Kill(signal)]
    {
      log := log + [Kill(signal)];
    }

    method ClearTimer()
      modifies this`timer
      ensures View() == old(View()).ClearTimer()
    {
      if !timer.IsClosing() {
        timer := timer.Close();
      }
    }

    method RunTimer()
      modifies this
      ensures View() == old(View()).OnTimer()
    {
      ClearTimer();
      EmitEvent(Timeout);
      SendSignal(SIGKILL);
    }

    method RunExit(status: int, signal: int)
      modifies this
      ensures View() == old(View()).OnExit(status, signal)
    {
      if timer.inited {
        ClearTimer();
      }
      process := process.Close();
      exited := true;
      termSignal := signal;
      exitStatus := status;
      if stderrFlushed {
        EmitEvent(Exit(status, signal));
      }
    }

    method RunStdout(r: ReadResult)
      modifies this
      ensures View() == old(View()).OnRead(Out, r)
    {
      if r.Data? {
        EmitEvent(Stdout(r.bytes));
      } else if r.Ends() {
        EndStdout(r.Failed?);
      }
      pipeOut, frees := pipeOut.(pending := false), frees + 1;
    }

    /** The arm of the stdout callback for the end of the stream or an error. */
    method EndStdout(failed: bool)
      modifies this
      ensures View() == old(View()).OnStdoutEnd(failed)
    {
      if failed {
        SendSignal(SIGTERM);
      }
      pipeOut := pipeOut.(handle := pipeOut.handle.Close());
    }

    method RunStderr(r: ReadResult)
      modifies this
      ensures View() == old(View()).OnRead(Err, r)
    {
      if r.Data? {
        EmitEvent(Stderr(r.bytes));
      } else if r.Ends() {
        EndStderr(r.Failed?);
      }
      pipeErr, frees := pipeErr.(pending := false), frees + 1;
    }

    /** The arm of the stderr callback for the end of the stream or an error. */
    method EndStderr(failed: bool)
      modifies this
      ensures View() == old(View()).OnStderrEnd(failed)
    {
      if failed {
        SendSignal(SIGTERM);
      }
      pipeErr := pipeErr.(handle := pipeErr.handle.Close());
      stderrFlushed := true;
      if exited {
        EmitEvent(Exit(exitStatus, termSignal));
      }
    }

    method RunAlloc(s: Stream)
      modifies this
      ensures View() == old(View()).OnAlloc(s)
    {
      if s == Out {
        pipeOut := pipeOut.(pending := true);
      } else {
        pipeErr := pipeErr.(pending := true);
      }
      allocs := allocs + 1;
    }

    /** spawn(): zero, or the error code of the call that failed. */
    method CallSpawn(o: Outcome) returns (r: int)
      modifies this
      ensures View() == old(View()).OnSpawn(o)
      ensures r == if o.spawn != 0 then o.spawn else if o.readOut != 0 then o.readOut else o.readErr
    {
      called := true;
      if timeout > 0 {
        timer := timer.(inited := true);
      }
      if o.spawn != 0 {
        return o.spawn;
      }
      started := true;
      pid := o.pid;
      r := ReadBoth(o);
    }

    /** The part of spawn() after a successful uv_spawn. */
    method ReadBoth(o: Outcome) returns (r: int)
      modifies this
      ensures View() == old(View()).StartReading(o)
      ensures r == if o.readOut != 0 then o.readOut else o.readErr
    {
      if o.readOut != 0 {
        SendSignal(SIGKILL);
        return o.readOut;
      }
      pipeOut := pipeOut.(reading := true);
      if o.readErr != 0 {
        SendSignal(SIGKILL);
        return o.readErr;
      }
      pipeErr := pipeErr.(reading := true);
      return 0;
    }
  }
}
