# dorypuppy: trees and child processes

A Dafny model of the two parts of this repository that carry real logic, with proofs.

1. **The intrusive search trees of `uv/tree.h`.** A red-black tree with parent links and a
   top-down splay tree, over nodes that the client owns. `Order`, `RbShape`, `RbHeap`,
   `RbSearch`, `RbInsert`, `RbRemove`, `RbIterate` and `RbHeight` hold the first,
   `SplayShape`, `SplayPath`, `SplayHeap`, `SplayOps` and `SplaySet` the second. `OrderedSet` is the
   sorted sequence that both implement, and `Refinement` the proof that they do.
2. **The life of a child process.** `Spawn` is `DoryProcessSpawn` with its callbacks,
   `SpawnRuns` what holds on all its runs. `Tables` is the Java and the native pid table,
   `System` any number of processes, spawning threads and the loop thread over both tables,
   `Delivery` what the Java listeners hear, and `Witnesses` runs that show what can go
   wrong. `Play` drives the objects of `Spawn` and `Tables` through whole runs.

## How it is modelled

**Trees.** `Node` is a class with the fields of `RB_ENTRY`/`SPLAY_ENTRY`, updated in place;
`Head` and `SplayHead` hold the root link. A ghost tree value says which node sits where,
and `Valid()` ties it to the links, the colours and the order. A place in the middle of a
red-black tree is a subtree and a context (`Zip`); every rearrangement is one function on
such places, proved to keep the node sequence and the black counts, and one method that does
it with the links. In the middle of a splay the two partial trees are `Spine` values that
hang off the dummy node, a real extra `Node`. A `Side` parameter merges the mirror-image
arms that the header spells out twice. `SPLAY` and `SPLAY_MINMAX` are one method, because
the second is the first with a key below or above all others (`Probe`). `SplayPath` says
what a splay makes of the tree by single rotations from the bottom up; the loop from the top
down is proved to give the same, and the path to be halved by it. `cmp` is any total order
on an abstract key type, and `RB_AUGMENT` is empty.

**Processes.** A child is a record with one function per callback; the class
`DoryProcessSpawn` updates fields in place and is proved equal to these functions, step by
step. Runs are sequences of events and states, of any length. What libuv does is assumed, in
`Child.Enabled` and `System.Enabled`:

- callbacks are serialised on the loop thread;
- the exit callback runs at most once, and only for a process that started;
- no timer or read callback runs after `uv_close` of its handle, and `uv_is_closing` stays
  true;
- a read callback gives back the buffer that the allocation callback handed out;
- errors are negative, pids positive.

About pids each theorem says what it needs. A process is busy from its spawn until no
callback, no step of its thread and no half of its exit listener is left. `System.PidApart`
asks of one process only that its pid is not shared among busy processes; `System.PidKept`
moreover that nobody gets its pid while an entry of it is left; `System.PidsUnused` that no
pid of any busy process is given out. After that a pid may come back any number of times.

Further: `spawn()` is called once; in `System` all listeners are set, in `Play` any; the
field `timer.loop` equals the loop exactly once the timer has been initialised; the pid
field holds an arbitrary number until `uv_spawn` succeeds. Each insert into and each erase
from a table is one step (mutex, `Hashtable`), the native spawn is one step, and the Java
and the native half of an exit listener are two.

## What turned out to depend on a condition

- stdout may come after "exit", since the exit gate waits for stderr only: `StdoutAfterExit`
  is a run, `MoreStdoutIff` the exact condition. No Java listener hears it, because the
  table entry is gone by then (`Deliveries`), unless it is a stale one.
- When `uv_spawn` fails and a timeout is set, the timer still fires and sends a signal:
  `AfterFailedSpawn`, exactly then, and nothing else can happen. The pid field was never
  set, so "timeout" goes to whichever process happens to be listed under that number:
  `TimeoutGoesAstray` is a run, `Borrowed` the exact condition.
- When reading of stdout or stderr could not be started, the process runs and exits, and
  "exit" is never emitted: `ExitNeverTold` is such a run, `ExitToCome` the exact condition.
- Both tables insert after the spawn has returned. If the exit step comes first, the entry
  stays, at least until a process with the same pid registers or exits: `ExitMayComeFirst`
  is a run, `StaleIff` the exact condition, `EntryGoes` what ends it. The exit listener is
  not called then, and bytes are heard exactly while the process is listed (`Deliveries`).
- When a pid under a stale entry comes back, the new process's output goes to the finished
  one's listeners until the new one is registered: `ChunkGoesAstray` and `EntryTakenOver` are
  runs, `Misdelivered` the exact condition.

## Model

| member | source | states |
|---|---|---|
| Order.SearchesMean | android/dorypuppy/src/main/cpp/uv/tree.h:628-665 | What lookup and lower bound mean without positions: the unique node with an equal key, the least node not below the key; and the two agree exactly when the key is present or the whole tree lies below it |
| Order.SuccessorPredecessor | android/dorypuppy/src/main/cpp/uv/tree.h:667-709 | In an ascending sequence the successor's predecessor is the node itself, and the other way round |
| RbHeap.Head.constructor | android/dorypuppy/src/main/cpp/uv/tree.h:306-308 | An initialised head is a valid, empty red-black tree |
| RbHeap.Head.Rotate | android/dorypuppy/src/main/cpp/uv/tree.h:342-380 | Both rotations, anywhere in a tree: the four links and the root link end up as the rotated shape, all other links untouched |
| RbSearch.Find | android/dorypuppy/src/main/cpp/uv/tree.h:628-644 | The node with an equal key or NULL, in at most 2 lg(n+1) rounds |
| RbSearch.NFind | android/dorypuppy/src/main/cpp/uv/tree.h:646-665 | The least node not below the key or NULL, in at most 2 lg(n+1) rounds |
| RbSearch.MinMax | android/dorypuppy/src/main/cpp/uv/tree.h:711-724 | The first node of the ascending sequence for a negative argument, else the last; NULL if empty; in at most 2 lg(n+1) rounds |
| RbSearch.Extreme | android/dorypuppy/src/main/cpp/uv/tree.h:541-543 | The inner descent of removal and of RB_NEXT/RB_PREV ends at the outermost node of the subtree, in fewer rounds than the subtree is high |
| RbInsert.Grandparent | android/dorypuppy/src/main/cpp/uv/tree.h:411-414 | A red focus with a red parent in a balanced context always has a black grandparent, so it is never NULL |
| RbInsert.RecolouredOk | android/dorypuppy/src/main/cpp/uv/tree.h:416-421 | The red-uncle arm keeps the order and all black counts and moves the violation up to the grandparent |
| RbInsert.StraightenedOk | android/dorypuppy/src/main/cpp/uv/tree.h:422-427 | The inner-child arm turns the case into the outer-child one |
| RbInsert.RotatedOk | android/dorypuppy/src/main/cpp/uv/tree.h:428-429 | The outer-child arm removes the violation and keeps the order and all black counts |
| RbInsert.RecolourArm | android/dorypuppy/src/main/cpp/uv/tree.h:416-421 | The field writes of the red-uncle arm make that rearrangement |
| RbInsert.StraightenArm | android/dorypuppy/src/main/cpp/uv/tree.h:422-427 | The link writes of the inner-child arm make that rearrangement |
| RbInsert.RotateArm | android/dorypuppy/src/main/cpp/uv/tree.h:428-429 | The writes of the outer-child arm make that rearrangement |
| RbInsert.InsertStep | android/dorypuppy/src/main/cpp/uv/tree.h:411-447 | One round keeps "balanced but for the colour of the focus and its parent" and the node sequence, and comes nearer to the root |
| RbInsert.Rebalance | android/dorypuppy/src/main/cpp/uv/tree.h:422-429 | With a black uncle one or two rotations do the same |
| RbInsert.InsertColor | android/dorypuppy/src/main/cpp/uv/tree.h:407-449 | From a red focus the fix-up ends in a valid red-black tree with the same node sequence, in no more rounds than the focus is deep |
| RbInsert.GapFits | android/dorypuppy/src/main/cpp/uv/tree.h:604-620 | The gap where the descent ends takes a red leaf: the node is new, the order is right, the black counts are kept |
| RbInsert.Attach | android/dorypuppy/src/main/cpp/uv/tree.h:615-623 | RB_SET and the one link to the new node hang it in the gap and change nothing else |
| RbInsert.Descent | android/dorypuppy/src/main/cpp/uv/tree.h:602-614 | The descent returns the node with an equal key, or else ends in the gap where the key belongs, on the side the last comparison told |
| RbInsert.Insert | android/dorypuppy/src/main/cpp/uv/tree.h:597-626 | A duplicate key returns the existing node and changes no field of any node; a new key gives NULL and a valid tree with the node at its sorted place; both loops make at most 2 lg(n+1) rounds |
| RbRemove.SiblingThere | android/dorypuppy/src/main/cpp/uv/tree.h:458-464 | A focus one black short always has a sibling, and a red one only below a black parent |
| RbRemove.SiblingRaisedOk | android/dorypuppy/src/main/cpp/uv/tree.h:460-464 | The red-sibling arm keeps the order, the shortage and all other counts and leaves a black sibling |
| RbRemove.MovedUpOk | android/dorypuppy/src/main/cpp/uv/tree.h:465-471 | With black nephews, reddening the sibling moves the shortage exactly one level up |
| RbRemove.NephewRaisedOk | android/dorypuppy/src/main/cpp/uv/tree.h:473-482 | The near-nephew arm keeps order, shortage and counts and leaves a red far nephew |
| RbRemove.SettledOk | android/dorypuppy/src/main/cpp/uv/tree.h:483-489 | The far-nephew arm ends the shortage: the whole tree is red-black again, in the same order |
| RbRemove.SiblingArm | android/dorypuppy/src/main/cpp/uv/tree.h:460-464 | The writes of the red-sibling arm make that rearrangement and reload the sibling |
| RbRemove.MoveUpArm | android/dorypuppy/src/main/cpp/uv/tree.h:465-471 | One colour write makes that rearrangement |
| RbRemove.NephewArm | android/dorypuppy/src/main/cpp/uv/tree.h:473-482 | The writes of the near-nephew arm make that rearrangement and reload the sibling |
| RbRemove.SettleArm | android/dorypuppy/src/main/cpp/uv/tree.h:483-489 | The writes of the far-nephew arm make that rearrangement |
| RbRemove.LoopCondition | android/dorypuppy/src/main/cpp/uv/tree.h:456-458 | The loop condition holds exactly while a black focus below the root is one short; then the parent is there, and comparing with its left child tells the side even when the focus is NULL |
| RbRemove.RemoveRound | android/dorypuppy/src/main/cpp/uv/tree.h:458-524 | One round keeps "all counts equal but for the focus, one short", keeps the sequence, and settles or climbs |
| RbRemove.BlackenedOk | android/dorypuppy/src/main/cpp/uv/tree.h:526-527 | When the loop is over, blackening the focus leaves a red-black tree |
| RbRemove.RemoveColor | android/dorypuppy/src/main/cpp/uv/tree.h:451-528 | From any place one black short the fix-up terminates in a valid red-black tree with the same sequence |
| RbRemove.CutOk | android/dorypuppy/src/main/cpp/uv/tree.h:579-593 | Bypassing a node leaves its place one short if it was black, and everything balanced if it was red |
| RbRemove.Splice | android/dorypuppy/src/main/cpp/uv/tree.h:581-590 | The link writes around a node with at most one child bypass it and nothing else |
| RbRemove.TakeOver | android/dorypuppy/src/main/cpp/uv/tree.h:559-570 | Copying the four fields and relinking parent and children puts the successor exactly where the removed node was |
| RbRemove.RemoveOuter | android/dorypuppy/src/main/cpp/uv/tree.h:535-538 | At most one child: the tree without the node, and the place, child, parent and colour handed to the fix-up |
| RbRemove.RemoveInner | android/dorypuppy/src/main/cpp/uv/tree.h:540-577 | Two children: the same, with the successor in the node's place, also when it is the right child itself |
| RbRemove.TakeOverInOrder | android/dorypuppy/src/main/cpp/uv/tree.h:540-577 | Moving the successor up removes exactly the node from the ascending sequence |
| RbRemove.Recolour | android/dorypuppy/src/main/cpp/uv/tree.h:591-593 | The fix-up is needed exactly for a black node, and afterwards the tree is red-black |
| RbRemove.Remove | android/dorypuppy/src/main/cpp/uv/tree.h:530-595 | Removing any node of a valid tree leaves a valid tree whose sequence of node objects is the old one minus exactly that node; the descent to the successor and the fix-up make at most 2 lg(n+1) rounds each; the node is returned |
| RbIterate.Step | android/dorypuppy/src/main/cpp/uv/tree.h:667-709 | RB_NEXT and RB_PREV give the in-order successor and predecessor, reading node links only, in at most 2 lg(n+1) rounds |
| RbIterate.Foreach | android/dorypuppy/src/main/cpp/uv/tree.h:738-741 | The loop visits the whole ascending sequence, each node once |
| RbIterate.ForeachReverse | android/dorypuppy/src/main/cpp/uv/tree.h:753-756 | The loop visits as many nodes as there are, the i-th visited being the i-th from the end |
| RbIterate.MidwayStep | android/dorypuppy/src/main/cpp/uv/tree.h:748-751 | Part of the way through, the successor is the next original node, removed or not |
| RbIterate.SafeRound | android/dorypuppy/src/main/cpp/uv/tree.h:748-751 | The successor saved before the body is still a node of the tree, and the right one, after the body removed the current node |
| RbIterate.ForeachSafe | android/dorypuppy/src/main/cpp/uv/tree.h:748-751 | With a body that removes any chosen nodes as they come, all original nodes are visited once in ascending order and exactly the others stay |
| RbIterate.SparedIs | android/dorypuppy/src/main/cpp/uv/tree.h:748-751 | A node stays exactly if it was there and not chosen; removing all leaves nothing |
| RbHeight.BlackSize | android/dorypuppy/src/main/cpp/uv/tree.h:53-61 | A tree with black count h has at least 2^h - 1 nodes |
| RbHeight.BlackHeight | android/dorypuppy/src/main/cpp/uv/tree.h:53-61 | The height is at most twice the black count, plus one below a red root |
| RbHeight.HeightBound | android/dorypuppy/src/main/cpp/uv/tree.h:60-61 | 2^height <= (n+1)^2, and so for any count of rounds up to the height |
| SplayHeap.SplayHead.constructor | android/dorypuppy/src/main/cpp/uv/tree.h:72-74 | An initialised head is a valid, empty splay tree |
| SplayHeap.SplayHead.Rotate | android/dorypuppy/src/main/cpp/uv/tree.h:88-98 | Both rotations at the root, while two partial trees hang off the dummy |
| SplayHeap.SplayHead.LinkOut | android/dorypuppy/src/main/cpp/uv/tree.h:100-110 | Both links: the root and one subtree join a partial tree at its open end, the other subtree remains |
| SplayHeap.SplayHead.Assemble | android/dorypuppy/src/main/cpp/uv/tree.h:112-117 | The three pieces become one tree with all their nodes, also when a partial tree is empty and its end is the dummy itself |
| SplayPath.SidesHalved | android/dorypuppy/src/main/cpp/uv/tree.h:218-241 | Of n nodes on the search path a splay makes at most n/2 + 1 levels above the subtrees that hung off the path on the side left first, and (n-1)/2 + 1 on the other |
| SplayPath.Halved | android/dorypuppy/src/main/cpp/uv/tree.h:40-47 | So whatever is searched for, and found or not, the path is at most half as high afterwards: height <= path/2 + 2 + the highest subtree that hung off it |
| SplayPath.ChainHalved | android/dorypuppy/src/main/cpp/uv/tree.h:247-278 | Splaying for the first or last node, by key or infinity, brings it to the root and leaves exactly half of the chain that led there, plus the chain of its own subtree |
| SplayOps.LinkBeside | android/dorypuppy/src/main/cpp/uv/tree.h:228-238 | What joins a partial tree lies on that side of the key |
| SplayOps.RoundGlue | android/dorypuppy/src/main/cpp/uv/tree.h:219-239 | A round of the top-down loop, with its rotation exactly when two steps go the same way, leaves pieces that assemble to what single rotations from the bottom up would make of the tree |
| SplayOps.Approach | android/dorypuppy/src/main/cpp/uv/tree.h:219-227 | The part of a round before the link rotates exactly when two steps go the same way, and stops exactly when nothing is left on the side of the key |
| SplayOps.Round | android/dorypuppy/src/main/cpp/uv/tree.h:219-239 | One arm of the loop keeps the node sequence across the three pieces and the sides of both partial trees, never empties the middle, and stops or makes it smaller |
| SplayOps.Descend | android/dorypuppy/src/main/cpp/uv/tree.h:218-240 | The loop terminates, at the key or where nothing is left on its side |
| SplayOps.Finished | android/dorypuppy/src/main/cpp/uv/tree.h:241-241 | After assembly the sequence is the old one, and the root is the key or separates smaller from greater |
| SplayOps.Splay | android/dorypuppy/src/main/cpp/uv/tree.h:209-278 | A splay keeps exactly the nodes and their order, never makes the root NULL, parts the tree at the key, has the shape that rotations from the bottom up would give, and halves the path; likewise for the two infinities |
| SplaySet.PartedRank | android/dorypuppy/src/main/cpp/uv/tree.h:209-242 | After a splay the root is the node with the key if there is one, otherwise the immediate predecessor or successor of the key |
| SplaySet.Find | android/dorypuppy/src/main/cpp/uv/tree.h:128-137 | The node with an equal key, now at the root, or NULL; the contents stay and the tree is splayed in either case |
| SplaySet.InsertedOk | android/dorypuppy/src/main/cpp/uv/tree.h:170-184 | The tree split around the new root has the old sequence with the node at its sorted place |
| SplaySet.Insert | android/dorypuppy/src/main/cpp/uv/tree.h:164-186 | A duplicate returns the existing node, keeps the contents and leaves the links of a node outside the tree alone; otherwise NULL, and the node is at its sorted place; the root is the one or the other |
| SplaySet.RightEmpty | android/dorypuppy/src/main/cpp/uv/tree.h:200-202 | A tree splayed for a key above all of it has a root without a right child |
| SplaySet.Join | android/dorypuppy/src/main/cpp/uv/tree.h:199-202 | So hanging the saved right part there loses no node |
| SplaySet.Remove | android/dorypuppy/src/main/cpp/uv/tree.h:188-207 | The node with an equal key goes and the argument is returned, the left part having been splayed again; without one, NULL and the same contents |
| SplaySet.Next | android/dorypuppy/src/main/cpp/uv/tree.h:139-151 | The in-order successor; the contents stay and the argument is at the root |
| SplaySet.MinMax | android/dorypuppy/src/main/cpp/uv/tree.h:153-158 | The first or last node, now at the root, NULL if empty; the contents stay |
| SplaySet.Foreach | android/dorypuppy/src/main/cpp/uv/tree.h:292-295 | The loop visits the whole sequence once, ascending, although every step reshapes the tree |
| OrderedSet.ContentsAreSet | android/dorypuppy/src/main/cpp/uv/tree.h:597-644 | The reference is a set: after any history it is sorted and has a key exactly if the last insertion or removal of that key was an insertion |
| OrderedSet.AnswersAreMembership | android/dorypuppy/src/main/cpp/uv/tree.h:597-644 | Every answer of a history says whether the key was in the set at that point |
| Refinement.DidApply | android/dorypuppy/src/main/cpp/uv/tree.h:530-644 | What the tree operations promise about nodes is one step of the reference on keys |
| Refinement.RunRb | android/dorypuppy/src/main/cpp/uv/tree.h:530-644 | Any sequence of insert, find and find-then-remove on a red-black tree gives the reference's answers |
| Refinement.RunSplay | android/dorypuppy/src/main/cpp/uv/tree.h:128-207 | The same on a splay tree, so both trees always answer alike |
| Spawn.DoryProcessSpawn.constructor | DoryProcessSpawn.hpp:40-80 | The starting state: handles and pipes set up, the timer not |
| Spawn.DoryProcessSpawn.ClearTimer | DoryProcessSpawn.hpp:254-258 | The timer is closed unless it is closing already |
| Spawn.DoryProcessSpawn.RunTimer | DoryProcessSpawn.hpp:156-162 | The timer callback, on the fields, is the timer step |
| Spawn.DoryProcessSpawn.RunExit | DoryProcessSpawn.hpp:63-75 | The exit callback, on the fields, is the exit step |
| Spawn.DoryProcessSpawn.RunAlloc | DoryProcessSpawn.hpp:32-35 | The allocation callback hands out one more buffer |
| Spawn.DoryProcessSpawn.RunStdout | DoryProcessSpawn.hpp:174-186 | The stdout callback for data, zero, end and error is the read step |
| Spawn.DoryProcessSpawn.RunStderr | DoryProcessSpawn.hpp:193-208 | The stderr callback for data, zero, end and error is the read step |
| Spawn.DoryProcessSpawn.CallSpawn | DoryProcessSpawn.hpp:150-216 | spawn() on the fields is the spawn step, and returns zero or the code of the first call that failed |
| SpawnRuns.InvStep | DoryProcessSpawn.hpp:63-208 | Every callback the loop may run keeps the invariant of handles, buffers and effects |
| SpawnRuns.Reachable | DoryProcessSpawn.hpp:63-208 | So it holds in every reachable state |
| SpawnRuns.Flags | DoryProcessSpawn.hpp:63-75 | `exited` and `stderrFlushed` say exactly which of the two events have happened in the run |
| SpawnRuns.Saved | DoryProcessSpawn.hpp:69-71 | The saved status and signal are for ever those of the exit callback |
| SpawnRuns.ExitOnce | DoryProcessSpawn.hpp:63-75 | "exit" is emitted exactly once when both the exit callback and the end of stderr have happened, never before, with the status and signal of the exit callback |
| SpawnRuns.ExitAtTheLater | DoryProcessSpawn.hpp:193-206 | It is emitted at the later of the two events, and at no other |
| SpawnRuns.NothingAfterExit | DoryProcessSpawn.hpp:193-206 | No stderr chunk and no "timeout" follows "exit"; "timeout" comes at most once |
| SpawnRuns.AfterExitCallback | DoryProcessSpawn.hpp:63-68 | Once the exit callback has run, neither it nor the timer callback, with its "timeout" and SIGKILL, runs again |
| SpawnRuns.HandlesAndBuffers | DoryProcessSpawn.hpp:174-208 | In every reachable state each of the four handles was closed at most once, and buffers handed out equal buffers freed plus those held by pending reads |
| SpawnRuns.StdoutAfterExit | DoryProcessSpawn.hpp:73-74 | A run on which stdout, any chunk of it, follows "exit" |
| SpawnRuns.MoreStdoutIff | DoryProcessSpawn.hpp:174-186 | Once spawn() was called, stdout can still come exactly if it is being read and has not ended |
| SpawnRuns.AfterFailedSpawn | DoryProcessSpawn.hpp:153-168 | After a failed uv_spawn the one thing that can still happen is a single timer callback, with "timeout" and SIGKILL, exactly if a timeout was set |
| SpawnRuns.NoExitWithoutStderr | DoryProcessSpawn.hpp:187-212 | After a failed spawn or a failed start of reading, "exit" is never emitted |
| SpawnRuns.MayExitIff | DoryProcessSpawn.hpp:193-206 | From any state that satisfies the invariant after spawn(), some continuation emits "exit" exactly if stderr is or was being read and one of the two events is still to come |
| SpawnRuns.ExitToCome | DoryProcessSpawn.hpp:166-215 | So at any point of any run "exit" can still come exactly if all calls in spawn() succeeded and one of the two events is still to come |
| SpawnRuns.ExitNeverTold | DoryProcessSpawn.hpp:187-212 | For every failure after a successful uv_spawn, a run on which the process exits and "exit" has not come and cannot come any more |
| SpawnRuns.SilentIff | DoryProcessSpawn.hpp:63-208 | The loop has no callback left for a child exactly if its timer, process and pipes are closed or never became active |
| SpawnRuns.Finished | DoryProcessSpawn.hpp:150-216 | When no callback is left, all buffers are freed, "exit" was emitted once or, if a call in spawn() failed, never, and closed once are exactly: the timer if there was a timeout, the process if it started, each pipe whose reading was started; the other handles stay open |
| SpawnRuns.SignalsAfterExit | DoryProcessSpawn.hpp:179-199 | After the exit callback the signals sent are exactly one SIGTERM per failed read |
| SpawnRuns.SpawnLog | DoryProcessSpawn.hpp:187-212 | On every run spawn() sends signal 9 exactly if uv_spawn succeeded and a start of reading failed |
| SpawnRuns.TimerLog | DoryProcessSpawn.hpp:156-162 | On every run the timer callback adds "timeout" and signal 9, in this order, whatever has started |
| SpawnRuns.SignalsSent | DoryProcessSpawn.hpp:150-216 | Over every run: one signal 9 per timer callback and per child that could not be listened to, one signal 15 per failed read, no other signal, one "timeout" per timer callback |
| SpawnRuns.Ledger | DoryProcessSpawn.hpp:32-208 | Over every run: the process was closed once per exit callback, each pipe once per end or failure of its stream, the timer once it fired or the process exited; one buffer was handed out per allocation callback and freed per read callback, be it for data, zero, end or error |
| Tables.DoryPuppy.JniStdout | android/dorypuppy/src/main/java/io/tempage/dorypuppy/DoryPuppy.java:41-46 | The stdout listener of the process listed under the pid is called with the bytes exactly if there is an entry and that listener is set; the table stays |
| Tables.DoryPuppy.JniStderr | android/dorypuppy/src/main/java/io/tempage/dorypuppy/DoryPuppy.java:47-52 | The same for the stderr listener |
| Tables.DoryPuppy.JniTimeout | android/dorypuppy/src/main/java/io/tempage/dorypuppy/DoryPuppy.java:67-74 | The same for the timeout listener |
| Tables.DoryPuppy.JniExit | android/dorypuppy/src/main/java/io/tempage/dorypuppy/DoryPuppy.java:53-66 | The entry goes in any case; the listed process alone keeps code, signal and the time, and its exit listener is called exactly if it is set |
| Tables.DoryPuppy.PuppySpawn | android/dorypuppy/src/main/java/io/tempage/dorypuppy/DoryPuppy.java:90-101 | An error code throws and registers nothing, a pid registers the process |
| System.ListedIff | android/dorypuppy/src/main/cpp/dorypuppy.cpp:154-175 | In any order of inserts and exit steps, as long as its own pid is kept, a process is listed in either table exactly from its insert on, until its exit step if that comes later, and else all the time |
| System.StaleStays | android/dorypuppy/src/main/cpp/dorypuppy.cpp:148-175 | A stale entry stays through every continuation on which the pid is not given out again |
| System.EntryGoes | android/dorypuppy/src/main/java/io/tempage/dorypuppy/DoryPuppy.java:65-100 | However pids are given out, a step takes a process's Java entry away exactly if it is the insert of another process with the same pid or an exit step under that pid |
| System.SignalGoes | android/dorypuppy/src/main/cpp/dorypuppy.cpp:178-189 | However pids are given out, a signal goes to the process listed under the pid, to nobody if there is none, and changes nothing else |
| System.SignalReaches | android/dorypuppy/src/main/cpp/dorypuppy.cpp:178-189 | A signal for a pid reaches exactly the process that has the pid and is listed, and a finished process only through a stale entry or between the two halves of its exit listener; this for every process whose own pid is kept |
| System.LeavesIff | DoryProcessSpawn.hpp:63-75 | A callback emits "exit" exactly if it completes the pair of exit and end of stderr |
| System.BaseReachable | android/dorypuppy/src/main/cpp/dorypuppy.cpp:148-175 | After every interleaving, whatever pids are given out: every child keeps its invariant, exit steps and erases come once and in order, and every table entry names a started process under its own pid |
| System.OwnStep | android/dorypuppy/src/main/cpp/dorypuppy.cpp:148-175 | Every step of any thread keeps the relation between one process and both tables, provided that a new process gets no pid of another busy one, and nobody else gets the pid of this one while something of it is left |
| System.OwnReachable | android/dorypuppy/src/main/cpp/dorypuppy.cpp:148-175 | So it holds after every interleaving that treats the pid of this process so, whatever happens to other pids |
| System.KeptIfFirst | android/dorypuppy/src/main/cpp/dorypuppy.cpp:148-175 | For a process whose inserts come before its exit step it is enough that its pid is not given out while it is busy |
| System.DoneIff | android/dorypuppy/src/main/cpp/dorypuppy.cpp:148-175 | A started process is done, that is not busy, exactly if it will take no step any more |
| System.DoneForGood | android/dorypuppy/src/main/cpp/dorypuppy.cpp:148-175 | A process that is done stays as it is, whatever the others do |
| System.OverIff | android/dorypuppy/src/main/cpp/dorypuppy.cpp:148-175 | It is over exactly if, moreover, neither table lists it |
| System.NoFinishedPids | android/dorypuppy/src/main/java/io/tempage/dorypuppy/DoryPuppy.java:53-66 | When inserts precede exit steps and no pid of a busy process is given out, neither table ever holds a finished pid, but for the native entry between the two halves of its exit listener |
| System.TablesAgree | android/dorypuppy/src/main/java/io/tempage/dorypuppy/DoryPuppy.java:90-101 | At quiescent points both tables are then equal and hold exactly the registered processes that have not exited |
| System.StaleIff | android/dorypuppy/src/main/cpp/dorypuppy.cpp:148-175 | In any order, a finished process whose pid is kept has a Java entry exactly if its exit step came before its insert, and a native one exactly if the erase did |
| Witnesses.ExitMayComeFirst | android/dorypuppy/src/main/cpp/dorypuppy.cpp:148-175 | A run after which both tables list, by stale entries, a finished process that takes no step any more |
| Witnesses.ChunkGoesAstray | android/dorypuppy/src/main/cpp/dorypuppy.cpp:139-147 | A run on which the pid under such an entry comes back, and what the new process writes is told to the listener of the finished one |
| Witnesses.EntryTakenOver | android/dorypuppy/src/main/cpp/dorypuppy.cpp:171-174 | The same run further on: the inserts of the new process overwrite the stale entries |
| Witnesses.TimeoutGoesAstray | android/dorypuppy/src/main/cpp/dorypuppy.cpp:125-129 | A run on which the timer of a process that never started calls the timeout listener of a listed one that is running and has no timeout |
| Witnesses.PidMayReturn | android/dorypuppy/src/main/cpp/dorypuppy.cpp:168-174 | A run on which a pid is given out a second time, after its first process is over |
| Delivery.OwnCallIs | android/dorypuppy/src/main/java/io/tempage/dorypuppy/DoryPuppy.java:41-74 | A listed process's timer calls its timeout listener, its chunks the listener of their stream with their bytes, its completing exit callback the exit listener with its status and signal, and nothing else |
| Delivery.OwnCallback | android/dorypuppy/src/main/java/io/tempage/dorypuppy/DoryPuppy.java:41-66 | A callback of a listed process adds exactly its chunk, and its exit if due, to what its listeners heard; of an unlisted one, nothing |
| Delivery.OtherCallback | android/dorypuppy/src/main/java/io/tempage/dorypuppy/DoryPuppy.java:41-66 | A callback of another process adds neither a chunk nor an exit, and nothing after the exit |
| Delivery.Misdelivered | android/dorypuppy/src/main/cpp/dorypuppy.cpp:130-157 | However pids are given out, a callback of one process reaches the listeners of another exactly if the other is listed under the pid that the first has in its pid field, and then with everything it tells |
| Delivery.Borrowed | android/dorypuppy/src/main/cpp/dorypuppy.cpp:125-129 | If the pid of the other is kept, that is exactly the timer of a child that never started and whose pid field holds the listed pid; it then calls the timeout listener once |
| Delivery.Deliveries | android/dorypuppy/src/main/cpp/dorypuppy.cpp:130-157 | For every process whose own pid is kept, in any order of inserts and events and whatever happens to other pids: its listeners hear exactly the stdout and stderr bytes read while it is in the Java table, in order and however chunked; the exit listener is called once if the exit step came after the insert and else never; no listener call follows it |
| Delivery.ExitTold | android/dorypuppy/src/main/cpp/dorypuppy.cpp:148-153 | Every call of the exit listener passes on the status and signal that the exit callback of that process was given |
| Delivery.RegisteredDeliveries | android/dorypuppy/src/main/java/io/tempage/dorypuppy/DoryPuppy.java:41-66 | For a process registered before its first callback, whose pid is not given out again while events of it remain: all stderr bytes read are heard, of stdout exactly those read before the exit step, and the exit listener is called exactly when "exit" is emitted |
| Play.PlayChild | DoryProcessSpawn.hpp:37-259 | A DoryProcessSpawn object driven through any sequence of events goes through the states of a run, so that what holds on all runs holds of the object |
| Play.Tell | android/dorypuppy/src/main/java/io/tempage/dorypuppy/DoryPuppy.java:41-74 | The listener closures, passing on effect after effect, leave the Java side as the transition system says, for every choice of listeners |
| Play.PlayTables | android/dorypuppy/src/main/cpp/dorypuppy.cpp:148-189 | The Java and the native table object, driven through any run with any listeners set, hold and call what the transition system says |
| Play.HeededHear | android/dorypuppy/src/main/java/io/tempage/dorypuppy/DoryPuppy.java:41-74 | A listener that is set hears all that it would hear if all were set, so that the delivery theorems hold of it, and one that is not set hears nothing |
| Delivery.ChunkHeardIff | android/dorypuppy/src/main/java/io/tempage/dorypuppy/DoryPuppy.java:47-52 | Without that order a chunk is heard exactly if its process is registered by then |

## Left out

- SplayOps.Splay: one splay halves its path; the amortised bound over many (android/dorypuppy/src/main/cpp/uv/tree.h:49-51) needs a logarithmic potential for this simplified zig-zag.
- SplaySet.MinMax: requires a non-zero argument, which SPLAY_MIN and SPLAY_MAX pass; with 0 the loop of SPLAY_MINMAX never ends.
- SplaySet.Next: requires a node of the tree, as SPLAY_NEXT reads links of its argument after the splay.
- RbIterate.ForeachSafe: the body may remove the current node; bodies that remove or insert others are not modelled.
- Spawn.DoryProcessSpawn.CallSpawn: one atomic step; callbacks that the loop thread might run between its libuv calls, and data races, are not modelled. The asserted results of the timer calls are taken as zero.
- Tables.DoryPuppy.JniExit: the listener calls are recorded rather than made, so a listener that calls back into the table is not modelled.
- Tables.NativeTable.Kill: reads the table in one step, although the code takes no lock there; the copy of the process that the table holds is identified with the process.
- System.ListedIff: while a stale entry of the process itself is left, its pid must not be given out again; what happens then is said step by step by System.EntryGoes and Delivery.Misdelivered.
- RB_FOREACH_FROM, RB_FOREACH_REVERSE_FROM and RB_FOREACH_REVERSE_SAFE: the same steps from other starting points.
- libuv itself: only its declarations are in the repository, so it is the environment described above.
- JNI marshalling, reference lifetimes, string conversion, thread attachment and logging: foreign calls.
- The argument and environment arrays, the `on` overloads and the accessors of DoryProcess: no state that the protocol depends on.
- The "error" event: nothing in the repository emits it.
- Example programs and the sample application: demonstration code.
