/** Event sequences applied to the kernel model from its initial state; each
    method's ensures, proved by the verifier, give the state the sequence
    reaches. */
module KernelScenarios {
  import opened KernelSim

  /** Three active processes and current = 0: process 0 asks for I/O, a time
      slice ends, its I/O completes and process 2 terminates. */
  method BlockRotateCompleteReap() returns (afterSyscall: int, afterIrq0: int, afterIrq1: int, afterReap: int)
    ensures afterSyscall == 1 && afterIrq0 == 2 && afterIrq1 == 2 && afterReap == 0
  {
    var k := new Kernel([100, 200, 300]);
    IndexOfCorrect(k.processos[..], 100);
    k.HandleSyscall(100);
    assert k.Queue() == [0] && k.bloqueados[0];
    afterSyscall := k.current;

    k.HandleIrq0();
    afterIrq0 := k.current;

    k.HandleIrq1();
    assert k.Queue() == [] && !k.bloqueados[0];
    afterIrq1 := k.current;

    IndexOfCorrect(k.processos[..], 300);
    k.ReapChild(300);
    afterReap := k.current;
  }

  /** All three processes ask for I/O in turn. The third request finds two
      entries queued, so fim catches up with inicio and the queue reads as empty
      although every process is blocked; no process can run, current stays on
      the last requester, and the next I/O completion finds nothing to unblock. */
  method QueueOverflow() returns (current: int, looksEmpty: bool, allBlocked: bool, unblockedAfterIrq1: bool)
    ensures current == 2 && looksEmpty && allBlocked && !unblockedAfterIrq1
  {
    var k := new Kernel([100, 200, 300]);
    IndexOfCorrect(k.processos[..], 100);
    k.HandleSyscall(100);
    IndexOfCorrect(k.processos[..], 200);
    k.HandleSyscall(200);
    assert k.Queue() == [0, 1];
    IndexOfCorrect(k.processos[..], 300);
    k.HandleSyscall(300);
    current := k.current;
    looksEmpty := k.inicio == k.fim;
    allBlocked := k.bloqueados[0] && k.bloqueados[1] && k.bloqueados[2];
    k.HandleIrq1();
    unblockedAfterIrq1 := !k.bloqueados[0] || !k.bloqueados[1] || !k.bloqueados[2];
  }

  /** Process 1 terminates, processes 0 and 2 ask for I/O, and 0's I/O
      completes: process 0 is runnable, but current still points at the
      blocked process 2, so the end of the time slice does nothing. */
  method StaleTimeSlice() returns (before: int, after: int, zeroRunnable: bool)
    ensures before == 2 && after == 2 && zeroRunnable
  {
    var k := new Kernel([100, 200, 300]);
    IndexOfCorrect(k.processos[..], 200);
    k.ReapChild(200);
    IndexOfCorrect(k.processos[..], 100);
    k.HandleSyscall(100);
    IndexOfCorrect(k.processos[..], 300);
    k.HandleSyscall(300);
    assert k.Queue() == [0, 2];
    k.HandleIrq1();
    before := k.current;
    k.HandleIrq0();
    after := k.current;
    zeroRunnable := k.ativos[0] && !k.bloqueados[0];
  }
}
