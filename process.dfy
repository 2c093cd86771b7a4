/** The program-counter state machine of a managed process. The per-pid state
    file pc_state_<pid> is a map from pid to the saved counter. */
module ProcessSim {

  /** MAX_ITERATIONS: the number of work steps a process performs. */
  const MAX_ITERATIONS: int := 10

  /** The persisted state files of all processes: pid to saved PC. */
  type Store = map<int, int>

  /** load_pc_state: the saved PC, or 0 when the process has no state file. */
  function Load(store: Store, pid: int): int
  {
    if pid in store then store[pid] else 0
  }

  /** Without a record the load yields 0. */
  lemma LoadMissing(store: Store, pid: int)
    requires pid !in store
    ensures Load(store, pid) == 0
  {
  }

  /** save_pc_state(v) then load_pc_state() gives back v, and another process's
      record is not affected by the save. */
  lemma LoadAfterSave(store: Store, pid: int, v: int, other: int)
    ensures Load(store[pid := v], pid) == v
    ensures other != pid ==> Load(store[pid := v], other) == Load(store, other)
  {
  }

  /** After unlink the process starts again from 0, and the other records stay. */
  lemma LoadAfterDelete(store: Store, pid: int, other: int)
    ensures Load(store - {pid}, pid) == 0
    ensures other != pid ==> Load(store - {pid}, other) == Load(store, other)
  {
  }

  class Process {
    /** getpid() of this process. */
    const pid: int
    /** PC: the iteration counter. */
    var pc: int
    /** The state files on disk. */
    var store: Store
    /** The number of I/O requests (SIGUSR2) sent to the kernel. */
    var requests: nat

    /** The process as exec'd: PC = 0, with the state files it finds on disk. */
    constructor (pid: int, store: Store)
      ensures this.pid == pid && this.store == store && pc == 0 && requests == 0
    {
      this.pid := pid;
      this.store := store;
      pc := 0;
      requests := 0;
    }

    /** save_pc_state: overwrite this process's record with v. */
    method SavePcState(v: int)
      modifies this`store
      ensures store == old(store)[pid := v]
      ensures Load(store, pid) == v
    {
      store := store[pid := v];
    }

    /** handle_sigcont: PC becomes exactly the saved value (0 without a record). */
    method HandleSigcont()
      modifies this`pc
      ensures pc == Load(store, pid)
    {
      pc := Load(store, pid);
    }

    /** handle_sigusr1: the PC is saved unchanged before the process stops. */
    method HandleSigusr1()
      modifies this`store
      ensures store == old(store)[pid := pc]
      ensures Load(store, pid) == pc
    {
      SavePcState(pc);
    }

    /** handle_sigterm: the record is removed before the process exits. */
    method HandleSigterm()
      modifies this`store
      ensures store == old(store) - {pid}
      ensures Load(store, pid) == 0
    {
      store := store - {pid};
    }

    /** A stop sent by the kernel followed by the matching continue: the PC is
        saved and loaded back, so it does not change. */
    method PauseResume()
      modifies this`pc, this`store
      ensures pc == old(pc)
      ensures store == old(store)[pid := pc]
    {
      HandleSigusr1();
      HandleSigcont();
    }

    /** One iteration of the main loop: PC goes up by exactly one and is saved
        before the work step. When the process asks for I/O and the SIGUSR2
        reaches the kernel, it is stopped and later resumed, which leaves PC and
        its record as they were. When the kill fails the process exits with
        status 1 on the spot: ok is false and the record keeps the new PC. */
    method Iterate(syscall: bool, delivered: bool) returns (ok: bool)
      modifies this`pc, this`store, this`requests
      ensures ok == (!syscall || delivered)
      ensures pc == old(pc) + 1
      ensures store == old(store)[pid := pc]
      ensures requests == old(requests) + (if syscall && delivered then 1 else 0)
    {
      pc := pc + 1;
      SavePcState(pc);
      if syscall {
        if !delivered {
          return false;
        }
        requests := requests + 1;
        PauseResume();
      }
      return true;
    }

    /** The body of main from the load of the PC on: load it (0 without a
        record), iterate while it is below MAX_ITERATIONS, then remove the
        record. Starting at or below the bound, a completed run ends exactly at
        it; a larger saved value skips the loop. A failed I/O request ends the
        run early (completed is false), below or at the bound, with the record
        of the last PC left in place. */
    method Run() returns (completed: bool)
      modifies this`pc, this`store, this`requests
      ensures var start := Load(old(store), pid);
              completed ==> pc == (if start < MAX_ITERATIONS then MAX_ITERATIONS else start)
      ensures completed ==> store == old(store) - {pid}
      ensures var start := Load(old(store), pid);
              !completed ==> start < pc <= MAX_ITERATIONS && store == old(store)[pid := pc]
      ensures requests >= old(requests)
    {
      pc := Load(store, pid);
      ghost var start := pc;
      while pc < MAX_ITERATIONS
        invariant pc == start || start < pc <= MAX_ITERATIONS
        invariant pc == start ==> store == old(store)
        invariant pc != start ==> store == old(store)[pid := pc]
        invariant requests >= old(requests)
        decreases MAX_ITERATIONS - pc
      {
        var syscall: bool :| true;
        var delivered: bool :| true;
        var ok := Iterate(syscall, delivered);
        if !ok {
          return false;
        }
      }
      store := store - {pid};
      return true;
    }
  }
}
