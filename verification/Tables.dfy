/** The two pid tables: the native processList and the Java one with its listeners. */
module Tables {
  import opened Spawn

  /** A listener call: which DoryProcess, and what it was told. */
  datatype Call = Call(puppy: nat, what: Emission)

  /** The Java side as it is when all listeners are set: the table, and the listener calls
      so far. */
  datatype Java = Java(table: map<int, nat>, calls: seq<Call>) {
    /** jniStdout, jniStderr and jniTimeout. */
    function Notify(pid: int, what: Emission): Java {
      if pid in table then this.(calls := calls + [Call(table[pid], what)]) else this
    }

    /** jniExit */
    function Leave(pid: int, what: Emission): Java {
      Notify(pid, what).(table := table - {pid})
    }

    /** The end of puppySpawn. */
    function Register(pid: int, puppy: nat): Java {
      this.(table := table[pid := puppy])
    }
  }

  datatype Listener = OnStdout | OnStderr | OnExit | OnTimeout

  datatype Moment = NotYet | ExitedAt(time: int)

  /** The listeners that are set, and what is remembered of the end. */
  class DoryProcess {
    const id: nat
    var listeners: set<Listener>
    var code: int
    var signal: int
    var exitedAt: Moment

    constructor (id: nat)
      ensures this.id == id && listeners == {} && exitedAt == NotYet
    {
      this.id := id;
      listeners, code, signal, exitedAt := {}, 0, 0, NotYet;
    }
  }

  class DoryPuppy {
    var processList: map<int, DoryProcess>
    ghost var calls: seq<Call>

    constructor ()
      ensures View() == Java(map[], []) && processList == map[]
    {
      processList, calls := map[], [];
    }

    ghost function View(): Java
      reads this
    {
      Java(map pid | pid in processList :: processList[pid].id, calls)
    }

    /** A listener that is not set is passed over. */
    method JniStdout(pid: int, bytes: seq<byte>)
      modifies this
      ensures processList == old(processList)
      ensures calls == old(calls) +
              if pid in processList && OnStdout in processList[pid].listeners
              then [Call(processList[pid].id, Stdout(bytes))] else []
    {
      if pid in processList && OnStdout in processList[pid].listeners {
        calls := calls + [Call(processList[pid].id, Stdout(bytes))];
      }
    }

    method JniStderr(pid: int, bytes: seq<byte>)
      modifies this
      ensures processList == old(processList)
      ensures calls == old(calls) +
              if pid in processList && OnStderr in processList[pid].listeners
              then [Call(processList[pid].id, Stderr(bytes))] else []
    {
      if pid in processList && OnStderr in processList[pid].listeners {
        calls := calls + [Call(processList[pid].id, Stderr(bytes))];
      }
    }

    method JniTimeout(pid: int)
      modifies this
      ensures processList == old(processList)
      ensures calls == old(calls) +
              if pid in processList && OnTimeout in processList[pid].listeners
              then [Call(processList[pid].id, Timeout)] else []
    {
      if pid in processList {
        if OnTimeout in processList[pid].listeners {
          calls := calls + [Call(processList[pid].id, Timeout)];
        }
      }
    }

    /** The entry goes in any case; the process it names, if any, keeps code, signal and
        the time, and hears of it if its listener is set. */
    method JniExit(pid: int, code: int, signal: int, now: int)
      modifies this, set p | p in processList.Values
      ensures processList == old(processList) - {pid}
      ensures calls == old(calls) +
              if pid in old(processList) && OnExit in old(processList[pid].listeners)
              then [Call(old(processList)[pid].id, Exit(code, signal))] else []
      ensures forall q | q in old(processList) :: var d := old(processList)[q];
                d.listeners == old(d.listeners) &&
                if pid in old(processList) && d == old(processList)[pid]
                then d.exitedAt == ExitedAt(now) && d.code == code && d.signal == signal
                else d.exitedAt == old(d.exitedAt) && d.code == old(d.code) && d.signal == old(d.signal)
    {
      if pid in processList {
        var puppy := processList[pid];
        puppy.code := code;
        puppy.signal := signal;
        puppy.exitedAt := ExitedAt(now);
        if OnExit in puppy.listeners {
          calls := calls + [Call(puppy.id, Exit(code, signal))];
        }
      }
      processList := processList - {pid};
    }

    /** puppySpawn, from the return of the native spawn on: an error code makes it throw. */
    method PuppySpawn(pid: int, puppy: DoryProcess) returns (thrown: bool)
      modifies this
      ensures thrown <==> pid <= 0
      ensures View() == if thrown then old(View()) else old(View()).Register(pid, puppy.id)
      ensures processList == if thrown then old(processList) else old(processList)[pid := puppy]
    {
      if pid <= 0 {
        return true;
      }
      processList := processList[pid := puppy];
      return false;
    }
  }

  /** A signal sent by DoryPuppy_kill. */
  datatype Sent = Sent(child: nat, signal: int)

  /** The native side: the table, and the signals sent through it so far. */
  datatype Native = Native(table: map<int, nat>, sent: seq<Sent>) {
    /** The end of DoryPuppy_spawn. */
    function Put(pid: int, child: nat): Native {
      this.(table := table[pid := child])
    }

    /** The end of the exit listener. */
    function Drop(pid: int): Native {
      this.(table := table - {pid})
    }

    /** DoryPuppy_kill */
    function Send(pid: int, signal: int): Native {
      if pid in table then this.(sent := sent + [Sent(table[pid], signal)]) else this
    }
  }

  /** The global processList of dorypuppy.cpp. Its mutex makes each method one step. */
  class NativeTable {
    var processList: map<int, nat>
    ghost var sent: seq<Sent>

    constructor ()
      ensures View() == Native(map[], [])
    {
      processList, sent := map[], [];
    }

    ghost function View(): Native
      reads this
    {
      Native(processList, sent)
    }

    method Insert(pid: int, child: nat)
      modifies this
      ensures View() == old(View()).Put(pid, child)
    {
      processList := processList[pid := child];
    }

    method Erase(pid: int)
      modifies this
      ensures View() == old(View()).Drop(pid)
    {
      processList := processList - {pid};
    }

    /** Nothing happens for a pid that is not in the table. */
    method Kill(pid: int, signal: int)
      modifies this
      ensures View() == old(View()).Send(pid, signal)
    {
      if pid in processList {
        sent := sent + [Sent(processList[pid], signal)];
      }
    }
  }
}
