# Preemptive round-robin scheduler simulation: a Dafny model

The system simulates an interrupt-driven scheduler. A kernel process keeps the
bookkeeping for three child processes: which are still active, which are
blocked on I/O, which one is current, and a circular FIFO of the blocked ones.
Four signal handlers drive that state: the end of a time slice (`handle_irq0`),
an I/O completion (`handle_irq1`), an I/O request from a child
(`handle_syscall`) and a child's termination (`handle_sigchld`). Each child
runs a program counter up to `MAX_ITERATIONS`. It saves the counter to a
per-pid state file when told to stop, reloads it when told to continue, and
deletes the file when it finishes or receives SIGTERM.

The model has three files:

- `kernelsim.dfy`, module `KernelSim`.
  - Class `Kernel` holds the globals of `kernelsim.c`. The pid table, the two
    flag tables and the queue buffer are arrays; `inicio`, `fim` and `current`
    are fields.
  - Each handler is a method that runs to completion. Its `ensures` give the
    whole new state in terms of the old one.
  - The handlers' loops are separate methods (`ScanForward`, `ScanLowest`,
    `FindIndex`, `RebuildQueue`). Each is proved against a specification
    function (`Scan`, `Lowest`, `IndexOf`, `Without`).
  - Lemmas say what those functions mean: first eligible index in
    round-robin order, lowest runnable index, first position of a pid, and
    filtering that keeps order.
  - The queue's abstract contents are `Live(fila, inicio, fim)`. Lemmas cover
    what `enqueue_io` and `dequeue_io` do to it, including the overflow.
  - `Consistent()` says a terminated process is neither blocked nor queued.
    Every handler preserves it. It holds in the initial state.
- `process.dfy`, module `ProcessSim`.
  - Class `Process` holds `PC`, the pid and the state files as a map from pid
    to saved counter.
  - The signal handlers and the main loop are methods.
- `scenarios.dfy`, module `KernelScenarios`. Three methods apply an event
  sequence to the model from its initial state; their `ensures`, proved by the
  verifier, give the current index and flags each sequence reaches:
  - a block / rotate / complete / reap run;
  - the queue overflow;
  - a time slice that does nothing, because current is blocked while another
    process is runnable.

The kill() calls the kernel makes are recorded in `Kernel.sent` as
`Usr1(pid)` (save and stop) and `Cont(pid)` (continue).

## Behaviour kept as the code has it

A tidier design would do each of these differently. The model follows the
code:

- The queue holds at most N - 1 = 2 entries. "Empty" means `inicio == fim`,
  and `enqueue_io` does not check for overflow. A third request made while two
  entries are queued therefore makes the queue read as empty. `LiveEnqueue`
  and `Kernel.Enqueue` state this, and `QueueOverflow` shows it happening.
  Afterwards every process is blocked and no I/O completion can unblock one.
- There is no "no current process" state. When a scan finds nothing,
  `current_process` keeps its value, even if that process is blocked or
  terminated.
- `handle_irq0` does nothing while the current process is blocked or
  terminated, even when another process is runnable (`StaleTimeSlice`).
- The rescan in `handle_sigchld` starts at index 0. It does not continue
  forward from the terminated index.
- `handle_sigchld` repoints `current` without sending the new current process
  SIGCONT (there is no `kill` in kernelsim.c:146-185). `Kernel.ReapChild` keeps
  this: `sent` is outside its `modifies` clause.
- `handle_syscall` starts its scan at `current_process` and excludes the
  requester, not the current index. It can therefore select the current
  process again.
- Blocked-iff-queued is not an invariant of the code. Overflow loses queued
  entries, and a repeated request from the same pid queues it twice.
  `Consistent()` states the part that does hold.

## Model

| member | source | states |
|---|---|---|
| `KernelSim.LiveBounds` | kernelsim.c:21-38 | at most N - 1 entries are ever visible in the queue, and it reads as empty exactly when `inicio == fim` |
| `KernelSim.LiveDequeue` | kernelsim.c:30-38 | on a non-empty queue the head is `fila[inicio]`, and advancing `inicio` leaves exactly the remaining entries in order |
| `KernelSim.LiveEnqueue` | kernelsim.c:25-28 | with fewer than N - 1 entries, writing at `fim` and advancing it appends the index at the tail; with N - 1 entries `fim` reaches `inicio` and the queue reads as empty |
| `KernelSim.LiveFromZero` | kernelsim.c:181-183 | after the rebuild the queue is the first `fim` slots of the buffer |
| `KernelSim.WithoutMembers` | kernelsim.c:170-179 | removing the terminated index keeps exactly the other entries, never grows the queue, and changes nothing when the index is absent |
| `KernelSim.WithoutAppend` | kernelsim.c:174-179 | removal distributes over concatenation, so the entries keep their relative order as the drain loop copies them one at a time |
| `KernelSim.Step` | kernelsim.c:55 | one step of the scan, `(next + 1) % NUM_PROCESSES` counted from the start, always lands on an index of the table |
| `KernelSim.ScanFrom` | kernelsim.c:54-60 | the scan's result from any step on is -1 or an index of the table |
| `KernelSim.ScanFromCorrect` | kernelsim.c:54-60 | from step k on, the scan returns the first eligible index among steps k to N, and -1 exactly when none of them is eligible |
| `KernelSim.ScanCorrect` | kernelsim.c:52-60 | the forward scan returns the first index in the order start + 1, ..., start + N (mod N) that is active, not blocked and not excluded, and returns -1 exactly when no index at all qualifies |
| `KernelSim.LowestFrom` | kernelsim.c:157-163 | the rescan from index j returns -1 or an index at or after j |
| `KernelSim.LowestFromCorrect` | kernelsim.c:157-163 | from index j on, the rescan returns the lowest runnable index, and -1 exactly when none is runnable |
| `KernelSim.LowestCorrect` | kernelsim.c:157-163 | the rescan returns the lowest-numbered active, unblocked index, and -1 exactly when there is none |
| `KernelSim.IndexFrom` | kernelsim.c:97-102 | the lookup from position j returns -1 or a position at or after j |
| `KernelSim.IndexFromCorrect` | kernelsim.c:97-102 | from position j on, the lookup returns the first position holding the pid, and -1 exactly when the pid does not occur there |
| `KernelSim.IndexOfCorrect` | kernelsim.c:96-102 | the lookup returns the first position of the pid in the table, and -1 exactly when the pid is not in the table |
| `KernelSim.Kernel.constructor` | kernelsim.c:15-23 | initially all three processes are active and unblocked, the queue is empty with both indices at 0, current is 0, and the pid table holds the given pids |
| `KernelSim.Kernel.Enqueue` | kernelsim.c:25-28 | writes the index at old `fim` and advances `fim` mod N; appends the index when fewer than N - 1 are queued, otherwise the queue becomes empty |
| `KernelSim.Kernel.Dequeue` | kernelsim.c:30-38 | on an empty queue returns -1 and leaves `inicio`, `fim` and the contents unchanged; otherwise returns the head and removes exactly it |
| `KernelSim.Kernel.ScanForward` | kernelsim.c:121-129 | the stepping for-loop finds an index exactly when the forward scan from current succeeds, and then returns the scan's choice |
| `KernelSim.Kernel.ScanLowest` | kernelsim.c:156-163 | the for-loop finds an index exactly when some process is runnable, and then returns the lowest one |
| `KernelSim.Kernel.FindIndex` | kernelsim.c:96-102 | returns the first index whose pid matches, and -1 exactly when the pid is not in the table |
| `KernelSim.Kernel.HandleIrq0` | kernelsim.c:40-71 | changes nothing when current is inactive or blocked; otherwise sends SIGUSR1 to current and selects the first eligible index after it (not itself), sending it SIGCONT, or keeps current when there is none; flags and queue untouched, invariant preserved |
| `KernelSim.Kernel.HandleIrq1` | kernelsim.c:73-89 | on an empty queue nothing changes; otherwise the head is removed and its blocked flag is cleared only if it is still active; current, active flags and `fim` untouched |
| `KernelSim.Kernel.HandleSyscall` | kernelsim.c:91-139 | an unknown pid or an inactive index changes nothing; otherwise blocks the index, appends it at the tail (or empties the queue on overflow), sends it SIGUSR1, and moves current to the scan's choice from current excluding the requester, which is active, unblocked and not the requester |
| `KernelSim.Kernel.ReapChild` | kernelsim.c:146-185 | an unknown pid changes nothing; otherwise marks the index inactive and unblocked, repoints current to the lowest runnable index if it was current (or keeps it), and rebuilds the queue from slot 0 without the index; no active flag is ever set again, and the invariant is preserved |
| `KernelSim.Kernel.RebuildQueue` | kernelsim.c:170-183 | after the drain and copy back, `inicio` is 0, `fim` is the count of the remaining entries, and the queue is the old queue without the index, in the same order |
| `KernelSim.Kernel.Install` | kernelsim.c:181-183 | the buffer is copied over `fila`, `inicio` becomes 0 and `fim` the count, so the queue is the first count entries of the buffer |
| `KernelScenarios.BlockRotateCompleteReap` | kernelsim.c:40-185 | from the initial state: after process 0's request current is 1 and the queue holds 0; after a time slice current is 2; after the completion current is still 2 and 0 is unblocked; after process 2 terminates current is 0 |
| `KernelScenarios.QueueOverflow` | kernelsim.c:25-38 | three requests in a row leave every process blocked, the queue reading as empty and current at 2, and the next completion unblocks nothing |
| `KernelScenarios.StaleTimeSlice` | kernelsim.c:42-45 | with current blocked and process 0 runnable, the end of a time slice leaves current at 2 |
| `ProcessSim.LoadMissing` | process.c:29-35 | loading without a record yields 0 |
| `ProcessSim.LoadAfterSave` | process.c:17-48 | saving v and then loading for the same pid gives back v; other pids' records are unaffected |
| `ProcessSim.LoadAfterDelete` | process.c:149-152 | after the record is removed a load yields 0 again; other records are unaffected |
| `ProcessSim.Process.constructor` | process.c:15 | PC starts at 0 with the state files found on disk |
| `ProcessSim.Load` | process.c:29-48 | the saved PC, or 0 when the pid has no record; its meaning is stated by `LoadMissing`, `LoadAfterSave` and `LoadAfterDelete` |
| `ProcessSim.Process.SavePcState` | process.c:17-27 | overwrites exactly this process's record with the value |
| `ProcessSim.Process.HandleSigcont` | process.c:51-56 | PC becomes exactly the persisted value, or 0 without a record |
| `ProcessSim.Process.HandleSigusr1` | process.c:58-63 | the current PC is persisted unchanged |
| `ProcessSim.Process.HandleSigterm` | process.c:65-73 | the record for the pid is removed |
| `ProcessSim.Process.PauseResume` | process.c:51-63 | a stop and the matching continue leave PC unchanged, with the record holding it |
| `ProcessSim.Process.Iterate` | process.c:115-139 | one iteration increases PC by exactly 1 and persists the new value; a delivered I/O request and its stop/continue leave both as they are; a failed `kill` to the kernel reports the exit(1), with the record holding the new PC |
| `ProcessSim.Process.Run` | process.c:113-152 | PC is loaded (0 without a record); from there on or below `MAX_ITERATIONS` the loop never exceeds the bound; a completed run ends with PC equal to it (a larger loaded value skips the loop) and removes the record; a run cut short by a failed I/O request ends above the loaded value and at most at the bound, with the record holding the last PC |

## Left out

- I/O and timing: all `printf`/`fflush` logging, `sleep`, `usleep`, `pause()` and the SIGSTOP a child sends itself.
- Process supervision: `main` in `kernelsim.c` (sigaction wiring, fork/execv of the children, the `kernel_pid` file, the first SIGCONT, the `pause()` loop) and `handle_sigterm` in `kernelsim.c`. main.c and intercontrollersim.c are not part of this model; they are orchestration and timer threads.
- The `waitpid(..., WNOHANG)` loop of `handle_sigchld`. `Kernel.ReapChild` models the body run for one reaped pid.
- Signal reentrancy and interleaving. Each handler is atomic. In particular, a SIGCONT arriving between `PC++` and `save_pc_state` in a child is not modelled.
- `Kernel.RebuildQueue`: in the code, the slots of `fila` past the new `fim` receive uninitialised stack memory from `new_fila_io`. The model's buffer is allocated without initial values, so its contract says nothing about those slots. They are never read before being written again.
- Process: real file I/O becomes the map `store`. The `exit(1)` paths for an unreadable or unwritable state file are left out, and so are the `kernel_pid` polling loop and `srand`/`rand()`. The roughly 25% I/O decision is a nondeterministic boolean in `Process.Run`.
- Process: the SIGUSR2 sent to the kernel is counted in `requests`. The kernel's stop and continue that answer it are modelled as the `PauseResume` pair. The kernel and a child are not connected into one system.
- Process: ignoring SIGCONT and SIGUSR1 after the loop (process.c:146-147), main's final `exit(0)` (process.c:155) and the `exit(0)` of `handle_sigterm` (process.c:72) are left out, because no event follows them.
- `Process.Run`: the `exit(1)` after a failed `kill(kernel_pid, SIGUSR2)` (process.c:133-136) is modelled as `Run` returning early with `completed` false. The model stops there and does not represent the exited process further. Its record stays in `store`, holding the last PC.
- `Process.Run`: only states `requests >= old(requests)`, because the number of I/O requests is chosen nondeterministically.
- `PC` is a `sig_atomic_t`. Values read from a state file are not bounded, and the model's `int` does not wrap.
