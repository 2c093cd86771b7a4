/** Scheduler bookkeeping of the simulated kernel: the active and blocked flags,
    the index of the running process, the circular I/O queue and the pid table,
    driven by four signal handlers, each of which runs to completion. */
module KernelSim {

  /** NUM_PROCESSES: the fixed number of managed processes. */
  const N: nat := 3

  /** A signal the kernel sends to a child with kill(): SIGUSR1 asks it to save
      its program counter and stop, SIGCONT lets it continue. */
  datatype Command = Usr1(pid: int) | Cont(pid: int)

  // ---------------------------------------------------------------------------
  // The circular I/O queue, as a value

  /** The entries of the queue held in fila between inicio (inclusive) and fim
      (exclusive), walking forward and wrapping modulo N. inicio == fim reads as
      empty, so at most N - 1 entries are ever visible. */
  function Live(fila: seq<int>, inicio: int, fim: int): seq<int>
    requires |fila| == N && 0 <= inicio < N && 0 <= fim < N
  {
    seq((fim - inicio) % N, k requires 0 <= k < (fim - inicio) % N => fila[(inicio + k) % N])
  }

  /** Every entry is an index of the process table. */
  predicate AllIndices(q: seq<int>)
  {
    forall k :: 0 <= k < |q| ==> 0 <= q[k] < N
  }

  lemma LiveBounds(fila: seq<int>, inicio: int, fim: int)
    requires |fila| == N && 0 <= inicio < N && 0 <= fim < N
    ensures |Live(fila, inicio, fim)| <= N - 1
    ensures Live(fila, inicio, fim) == [] <==> inicio == fim
  {
  }

  /** dequeue_io on a non-empty queue: the head is fila[inicio], and advancing
      inicio leaves exactly the rest of the queue. */
  lemma LiveDequeue(fila: seq<int>, inicio: int, fim: int)
    requires |fila| == N && 0 <= inicio < N && 0 <= fim < N && inicio != fim
    ensures Live(fila, inicio, fim) != []
    ensures Live(fila, inicio, fim)[0] == fila[inicio]
    ensures Live(fila, (inicio + 1) % N, fim) == Live(fila, inicio, fim)[1..]
  {
    var q, q' := Live(fila, inicio, fim), Live(fila, (inicio + 1) % N, fim);
    assert |q'| == |q| - 1;
    forall k | 0 <= k < |q'|
      ensures q'[k] == q[k + 1]
    {
      assert ((inicio + 1) % N + k) % N == (inicio + (k + 1)) % N;
    }
  }

  /** enqueue_io writes at fim and advances it: with fewer than N - 1 entries the
      index is appended at the tail; with N - 1 entries fim catches up with inicio
      and the whole queue reads as empty. */
  lemma LiveEnqueue(fila: seq<int>, inicio: int, fim: int, x: int)
    requires |fila| == N && 0 <= inicio < N && 0 <= fim < N
    ensures |Live(fila, inicio, fim)| < N - 1 ==>
              Live(fila[fim := x], inicio, (fim + 1) % N) == Live(fila, inicio, fim) + [x]
    ensures |Live(fila, inicio, fim)| == N - 1 ==>
              (fim + 1) % N == inicio && Live(fila[fim := x], inicio, (fim + 1) % N) == []
  {
    var q, q' := Live(fila, inicio, fim), Live(fila[fim := x], inicio, (fim + 1) % N);
    if |q| < N - 1 {
      assert |q'| == |q| + 1;
      forall k | 0 <= k < |q'|
        ensures q'[k] == (q + [x])[k]
      {
        if k < |q| {
          assert (inicio + k) % N != fim;
        } else {
          assert (inicio + k) % N == fim;
        }
      }
    }
  }

  /** After the rebuild in handle_sigchld the entries start at slot 0. */
  lemma LiveFromZero(fila: seq<int>, fim: int)
    requires |fila| == N && 0 <= fim < N
    ensures Live(fila, 0, fim) == fila[..fim]
  {
  }

  // ---------------------------------------------------------------------------
  // Removing the terminated index from the queue

  /** The entries of q other than x, in their original relative order. */
  function Without(q: seq<int>, x: int): seq<int>
  {
    if q == [] then []
    else if q[0] == x then Without(q[1..], x)
    else [q[0]] + Without(q[1..], x)
  }

  lemma {:induction false} WithoutMembers(q: seq<int>, x: int)
    ensures |Without(q, x)| <= |q|
    ensures forall y :: y in Without(q, x) <==> y in q && y != x
    ensures x !in q ==> Without(q, x) == q
  {
    if q != [] {
      WithoutMembers(q[1..], x);
      assert q == [q[0]] + q[1..];
    }
  }

  lemma {:induction false} WithoutAppend(a: seq<int>, b: seq<int>, x: int)
    ensures Without(a + b, x) == Without(a, x) + Without(b, x)
  {
    if a == [] {
      assert a + b == b;
    } else {
      assert (a + b)[1..] == a[1..] + b;
      WithoutAppend(a[1..], b, x);
    }
  }

  // ---------------------------------------------------------------------------
  // The scans over the process table

  /** A process that may run: still active and not blocked on I/O. */
  predicate Runnable(ativos: seq<bool>, bloqueados: seq<bool>, j: int)
    requires |ativos| == N && |bloqueados| == N && 0 <= j < N
  {
    ativos[j] && !bloqueados[j]
  }

  /** A candidate of the forward scan: runnable and not the excluded index. */
  predicate Eligible(ativos: seq<bool>, bloqueados: seq<bool>, j: int, excluded: int)
    requires |ativos| == N && |bloqueados| == N && 0 <= j < N
  {
    Runnable(ativos, bloqueados, j) && j != excluded
  }

  /** The index reached m steps forward from start, wrapping modulo N. */
  function Step(start: int, m: int): (j: int)
    ensures 0 <= j < N
  {
    (start + m) % N
  }

  /** The forward scan of handle_irq0 and handle_syscall, from the k-th step on:
      the first of Step(start, k), ..., Step(start, N) that is eligible, or -1. */
  function ScanFrom(ativos: seq<bool>, bloqueados: seq<bool>, start: int, excluded: int, k: nat): (r: int)
    requires |ativos| == N && |bloqueados| == N && 1 <= k <= N + 1
    ensures r == -1 || 0 <= r < N
    decreases N + 1 - k
  {
    if k > N then -1
    else if Eligible(ativos, bloqueados, Step(start, k), excluded) then Step(start, k)
    else ScanFrom(ativos, bloqueados, start, excluded, k + 1)
  }

  /** The whole forward scan: steps 1 to N after start. */
  function Scan(ativos: seq<bool>, bloqueados: seq<bool>, start: int, excluded: int): int
    requires |ativos| == N && |bloqueados| == N
  {
    ScanFrom(ativos, bloqueados, start, excluded, 1)
  }

  lemma {:induction false} ScanFromCorrect(ativos: seq<bool>, bloqueados: seq<bool>, start: int, excluded: int, k: nat)
    requires |ativos| == N && |bloqueados| == N && 1 <= k <= N + 1
    ensures var r := ScanFrom(ativos, bloqueados, start, excluded, k);
      && (r == -1 <==> forall m :: k <= m <= N ==> !Eligible(ativos, bloqueados, Step(start, m), excluded))
      && (r != -1 ==>
            && Eligible(ativos, bloqueados, r, excluded)
            && exists m :: k <= m <= N && r == Step(start, m) &&
                 forall m' :: k <= m' < m ==> !Eligible(ativos, bloqueados, Step(start, m'), excluded))
    decreases N + 1 - k
  {
    if k <= N {
      ScanFromCorrect(ativos, bloqueados, start, excluded, k + 1);
    }
  }

  /** The forward scan selects the first eligible index in the order start + 1,
      ..., start + N modulo N, and yields -1 exactly when no index at all is
      eligible. */
  lemma ScanCorrect(ativos: seq<bool>, bloqueados: seq<bool>, start: int, excluded: int)
    requires |ativos| == N && |bloqueados| == N && 0 <= start < N
    ensures var r := Scan(ativos, bloqueados, start, excluded);
      && (r == -1 <==> forall j :: 0 <= j < N ==> !Eligible(ativos, bloqueados, j, excluded))
      && (r != -1 ==>
            && 0 <= r < N && Eligible(ativos, bloqueados, r, excluded)
            && exists m :: 1 <= m <= N && r == Step(start, m) &&
                 forall m' :: 1 <= m' < m ==> !Eligible(ativos, bloqueados, Step(start, m'), excluded))
  {
    ScanFromCorrect(ativos, bloqueados, start, excluded, 1);
    var r := Scan(ativos, bloqueados, start, excluded);
    if r == -1 {
      forall j | 0 <= j < N
        ensures !Eligible(ativos, bloqueados, j, excluded)
      {
        var m := if j > start then j - start else j - start + N;
        assert Step(start, m) == j;
      }
    }
  }

  /** The rescan of handle_sigchld, from index j on: the lowest runnable index
      at or after j, or -1. */
  function LowestFrom(ativos: seq<bool>, bloqueados: seq<bool>, j: nat): (r: int)
    requires |ativos| == N && |bloqueados| == N && j <= N
    ensures r == -1 || j <= r < N
    decreases N - j
  {
    if j == N then -1
    else if Runnable(ativos, bloqueados, j) then j
    else LowestFrom(ativos, bloqueados, j + 1)
  }

  function Lowest(ativos: seq<bool>, bloqueados: seq<bool>): int
    requires |ativos| == N && |bloqueados| == N
  {
    LowestFrom(ativos, bloqueados, 0)
  }

  lemma {:induction false} LowestFromCorrect(ativos: seq<bool>, bloqueados: seq<bool>, j: nat)
    requires |ativos| == N && |bloqueados| == N && j <= N
    ensures var r := LowestFrom(ativos, bloqueados, j);
      && (r == -1 <==> forall i :: j <= i < N ==> !Runnable(ativos, bloqueados, i))
      && (r != -1 ==>
            && j <= r < N && Runnable(ativos, bloqueados, r)
            && forall i :: j <= i < r ==> !Runnable(ativos, bloqueados, i))
    decreases N - j
  {
    if j < N {
      LowestFromCorrect(ativos, bloqueados, j + 1);
    }
  }

  /** The rescan selects the lowest-numbered runnable index, and yields -1
      exactly when none is runnable. */
  lemma LowestCorrect(ativos: seq<bool>, bloqueados: seq<bool>)
    requires |ativos| == N && |bloqueados| == N
    ensures var r := Lowest(ativos, bloqueados);
      && (r == -1 <==> forall i :: 0 <= i < N ==> !Runnable(ativos, bloqueados, i))
      && (r != -1 ==>
            && 0 <= r < N && Runnable(ativos, bloqueados, r)
            && forall i :: 0 <= i < r ==> !Runnable(ativos, bloqueados, i))
  {
    LowestFromCorrect(ativos, bloqueados, 0);
  }

  /** The pid lookup of handle_syscall and handle_sigchld, from position j on:
      the first position at or after j holding pid, or -1. */
  function IndexFrom(pids: seq<int>, pid: int, j: nat): (r: int)
    requires j <= |pids|
    ensures r == -1 || j <= r < |pids|
    decreases |pids| - j
  {
    if j == |pids| then -1
    else if pids[j] == pid then j
    else IndexFrom(pids, pid, j + 1)
  }

  function IndexOf(pids: seq<int>, pid: int): int
  {
    IndexFrom(pids, pid, 0)
  }

  lemma {:induction false} IndexFromCorrect(pids: seq<int>, pid: int, j: nat)
    requires j <= |pids|
    ensures var r := IndexFrom(pids, pid, j);
      && (r == -1 <==> pid !in pids[j..])
      && (r != -1 ==> j <= r < |pids| && pids[r] == pid && pid !in pids[j..r])
    decreases |pids| - j
  {
    if j < |pids| {
      IndexFromCorrect(pids, pid, j + 1);
      assert pids[j..] == [pids[j]] + pids[j + 1..];
    }
  }

  /** The lookup finds the first position of pid in the table, and -1 exactly
      when the pid is not in the table. */
  lemma IndexOfCorrect(pids: seq<int>, pid: int)
    ensures var r := IndexOf(pids, pid);
      && (r == -1 <==> pid !in pids)
      && (r != -1 ==> 0 <= r < |pids| && pids[r] == pid && pid !in pids[..r])
  {
    IndexFromCorrect(pids, pid, 0);
    assert pids[0..] == pids;
  }

  // ---------------------------------------------------------------------------
  // The kernel's global state and its handlers

  class Kernel {
    /** processos: the pid of each managed process. */
    const processos: array<int>
    /** processos_ativos: false once the process has terminated. */
    const ativos: array<bool>
    /** processos_bloqueados: true while the process waits for I/O. */
    const bloqueados: array<bool>
    /** fila_io with fila_io_inicio and fila_io_fim: the circular I/O queue. */
    const fila: array<int>
    var inicio: int
    var fim: int
    /** current_process */
    var current: int
    /** The kill() commands sent to the children, oldest first. */
    var sent: seq<Command>

    /** The shape of the state: table sizes, every index in range and every
        queued entry an index of the table. */
    ghost predicate Valid()
      reads this, processos, ativos, bloqueados, fila
    {
      && processos.Length == N && ativos.Length == N && bloqueados.Length == N && fila.Length == N
      && ativos != bloqueados && processos != fila
      && 0 <= inicio < N && 0 <= fim < N && 0 <= current < N
      && AllIndices(Live(fila[..], inicio, fim))
    }

    /** The queued indices, head first. */
    ghost function Queue(): seq<int>
      reads this, processos, ativos, bloqueados, fila
      requires Valid()
    {
      Live(fila[..], inicio, fim)
    }

    /** What the handlers keep true from the initial state on: a terminated
        process is neither blocked nor queued. */
    ghost predicate Consistent()
      reads this, processos, ativos, bloqueados, fila
    {
      && Valid()
      && (forall j :: 0 <= j < N && !ativos[j] ==> !bloqueados[j])
      && (forall k :: 0 <= k < |Queue()| ==> ativos[Queue()[k]])
    }

    /** The globals as initialised, with the pid table filled in. */
    constructor (pids: seq<int>)
      requires |pids| == N
      ensures Valid() && Consistent()
      ensures fresh(processos) && fresh(ativos) && fresh(bloqueados) && fresh(fila)
      ensures processos[..] == pids
      ensures forall j :: 0 <= j < N ==> ativos[j] && !bloqueados[j]
      ensures Queue() == [] && inicio == 0 && fim == 0
      ensures current == 0 && sent == []
    {
      processos := new int[N](j => if 0 <= j < |pids| then pids[j] else 0);
      ativos := new bool[N](j => true);
      bloqueados := new bool[N](j => false);
      fila := new int[N](j => 0);
      inicio, fim := 0, 0;
      current := 0;
      sent := [];
      new;
      assert processos[..] == pids;
    }

    /** enqueue_io: write at the tail and advance it, with no overflow check. */
    method Enqueue(index: int)
      requires Valid() && 0 <= index < N
      modifies fila, this`fim
      ensures Valid()
      ensures fila[..] == old(fila[..])[old(fim) := index] && fim == (old(fim) + 1) % N
      ensures |old(Queue())| < N - 1 ==> Queue() == old(Queue()) + [index]
      ensures |old(Queue())| == N - 1 ==> Queue() == [] && inicio == fim
    {
      LiveBounds(fila[..], inicio, fim);
      LiveEnqueue(fila[..], inicio, fim, index);
      fila[fim] := index;
      fim := (fim + 1) % N;
    }

    /** dequeue_io: -1 on an empty queue, which is then left as it is; otherwise
        the head, which is removed. */
    method Dequeue() returns (index: int)
      requires Valid()
      modifies this`inicio
      ensures Valid()
      ensures old(Queue()) == [] ==> index == -1 && inicio == old(inicio)
      ensures old(Queue()) != [] ==>
                index == old(Queue())[0] && Queue() == old(Queue())[1..] &&
                inicio == (old(inicio) + 1) % N
    {
      LiveBounds(fila[..], inicio, fim);
      if inicio == fim {
        return -1;
      }
      LiveDequeue(fila[..], inicio, fim);
      index := fila[inicio];
      inicio := (inicio + 1) % N;
    }

    /** The for-loop of handle_irq0 and handle_syscall: starting at current, step
        forward N times and stop at the first runnable index other than
        excluded. */
    method ScanForward(excluded: int) returns (found: bool, next: int)
      requires Valid()
      ensures found <==> Scan(ativos[..], bloqueados[..], current, excluded) != -1
      ensures found ==> next == Scan(ativos[..], bloqueados[..], current, excluded)
    {
      next := current;
      found := false;
      var i := 0;
      while i < N
        invariant 0 <= i <= N
        invariant next == (current + i) % N
        invariant Scan(ativos[..], bloqueados[..], current, excluded)
                  == ScanFrom(ativos[..], bloqueados[..], current, excluded, i + 1)
      {
        next := (next + 1) % N;
        if ativos[next] && !bloqueados[next] && next != excluded {
          found := true;
          break;
        }
        i := i + 1;
      }
    }

    /** The for-loop of handle_sigchld: the lowest runnable index. */
    method ScanLowest() returns (found: bool, next: int)
      requires Valid()
      ensures found <==> Lowest(ativos[..], bloqueados[..]) != -1
      ensures found ==> next == Lowest(ativos[..], bloqueados[..])
    {
      found := false;
      next := 0;
      var j := 0;
      while j < N
        invariant 0 <= j <= N
        invariant Lowest(ativos[..], bloqueados[..]) == LowestFrom(ativos[..], bloqueados[..], j)
      {
        if ativos[j] && !bloqueados[j] {
          next := j;
          found := true;
          break;
        }
        j := j + 1;
      }
    }

    /** The pid lookup loop: the first index whose pid is pid, or -1. */
    method FindIndex(pid: int) returns (index: int)
      requires Valid()
      ensures index == IndexOf(processos[..], pid)
      ensures index == -1 <==> pid !in processos[..]
      ensures index != -1 ==> 0 <= index < N && processos[index] == pid
    {
      IndexOfCorrect(processos[..], pid);
      index := -1;
      var i := 0;
      while i < N
        invariant 0 <= i <= N
        invariant IndexOf(processos[..], pid) == IndexFrom(processos[..], pid, i)
      {
        if processos[i] == pid {
          index := i;
          break;
        }
        i := i + 1;
      }
    }

    /** handle_irq0, the end of a time slice. Nothing happens when the current
        process has terminated or is blocked. Otherwise it is told to stop and the
        forward scan from it, excluding it, picks the next one, which is told to
        continue; when the scan finds nothing current stays where it was. */
    method HandleIrq0()
      requires Valid()
      modifies this`current, this`sent
      ensures Valid()
      ensures !old(ativos[current]) || old(bloqueados[current]) ==>
                current == old(current) && sent == old(sent)
      ensures old(ativos[current]) && !old(bloqueados[current]) ==>
                var r := Scan(ativos[..], bloqueados[..], old(current), old(current));
                && current == (if r == -1 then old(current) else r)
                && sent == old(sent) + [Usr1(processos[old(current)])]
                           + (if r == -1 then [] else [Cont(processos[r])])
      ensures current != old(current) ==> ativos[current] && !bloqueados[current]
      ensures old(Consistent()) ==> Consistent()
    {
      if !ativos[current] || bloqueados[current] {
        return;
      }
      sent := sent + [Usr1(processos[current])];
      ScanCorrect(ativos[..], bloqueados[..], current, current);
      var found, next := ScanForward(current);
      if found {
        current := next;
        sent := sent + [Cont(processos[current])];
      }
    }

    /** handle_irq1, an I/O completion: dequeue the head and, if that process
        is still active, unblock it. */
    method HandleIrq1()
      requires Valid()
      modifies bloqueados, this`inicio
      ensures Valid()
      ensures old(Queue()) == [] ==>
                inicio == old(inicio) && bloqueados[..] == old(bloqueados[..])
      ensures old(Queue()) != [] ==>
                var head := old(Queue())[0];
                && Queue() == old(Queue())[1..]
                && bloqueados[..] == (if ativos[head] then old(bloqueados[..])[head := false]
                                      else old(bloqueados[..]))
      ensures old(Consistent()) ==> Consistent()
    {
      var index := Dequeue();
      if index != -1 {
        if ativos[index] {
          bloqueados[index] := false;
        }
      }
    }

    /** handle_syscall, an I/O request from the process with the given pid. An
        unknown pid or a terminated process changes nothing. Otherwise the process
        is blocked, queued and told to stop, and the forward scan from current,
        excluding the requester, picks the next one. */
    method HandleSyscall(pid: int)
      requires Valid()
      modifies bloqueados, fila, this`fim, this`current, this`sent
      ensures Valid()
      ensures var i := IndexOf(processos[..], pid);
              i == -1 || !ativos[i] ==>
                && bloqueados[..] == old(bloqueados[..]) && fila[..] == old(fila[..])
                && fim == old(fim) && current == old(current) && sent == old(sent)
      ensures var i := IndexOf(processos[..], pid);
              i != -1 && ativos[i] ==>
                && bloqueados[..] == old(bloqueados[..])[i := true]
                && fila[..] == old(fila[..])[old(fim) := i] && fim == (old(fim) + 1) % N
                && (|old(Queue())| < N - 1 ==> Queue() == old(Queue()) + [i])
                && (|old(Queue())| == N - 1 ==> Queue() == [])
                && var r := Scan(ativos[..], bloqueados[..], old(current), i);
                && current == (if r == -1 then old(current) else r)
                && sent == old(sent) + [Usr1(pid)] + (if r == -1 then [] else [Cont(processos[r])])
                && (r != -1 ==> ativos[current] && !bloqueados[current] && current != i)
      ensures old(Consistent()) ==> Consistent()
    {
      var index := FindIndex(pid);
      if index == -1 || !ativos[index] {
        return;
      }
      bloqueados[index] := true;
      Enqueue(index);
      sent := sent + [Usr1(pid)];
      ScanCorrect(ativos[..], bloqueados[..], current, index);
      var found, next := ScanForward(index);
      if found {
        current := next;
        sent := sent + [Cont(processos[current])];
      }
    }

    /** The body of handle_sigchld for one reaped pid. The process is marked
        terminated and unblocked; if it was current, the lowest runnable index
        becomes current (nothing changes if there is none); and the queue is
        rebuilt from slot 0 without it. An unknown pid changes nothing. */
    method ReapChild(pid: int)
      requires Valid()
      modifies ativos, bloqueados, fila, this`inicio, this`fim, this`current
      ensures Valid()
      ensures IndexOf(processos[..], pid) == -1 ==>
                && ativos[..] == old(ativos[..]) && bloqueados[..] == old(bloqueados[..])
                && fila[..] == old(fila[..]) && inicio == old(inicio) && fim == old(fim)
                && current == old(current)
      ensures var i := IndexOf(processos[..], pid);
              i != -1 ==>
                && ativos[..] == old(ativos[..])[i := false]
                && bloqueados[..] == old(bloqueados[..])[i := false]
                && var l := Lowest(ativos[..], bloqueados[..]);
                && current == (if old(current) == i && l != -1 then l else old(current))
                && inicio == 0 && fim == |Queue()|
                && Queue() == Without(old(Queue()), i)
                && fila[..fim] == Queue()
      ensures forall j :: 0 <= j < N && ativos[j] ==> old(ativos[j])
      ensures old(Consistent()) ==> Consistent()
    {
      ghost var wasConsistent := Consistent();
      ghost var q0, a0 := Queue(), ativos[..];
      var i := FindIndex(pid);
      if i == -1 {
        return;
      }
      ativos[i] := false;
      bloqueados[i] := false;
      if current == i {
        var found, j := ScanLowest();
        if found {
          current := j;
        }
      }
      RebuildQueue(i);
      if wasConsistent {
        WithoutMembers(q0, i);
        forall k | 0 <= k < |Queue()|
          ensures ativos[Queue()[k]]
        {
          var x := Queue()[k];
          assert x in q0 && x != i;
          var k' :| 0 <= k' < |q0| && q0[k'] == x;
          assert a0[x];
        }
      }
    }

    /** The end of handle_sigchld: drain the queue with dequeue_io into a fresh
        buffer, skipping index i, and copy it back from slot 0. */
    method RebuildQueue(i: int)
      requires Valid()
      modifies fila, this`inicio, this`fim
      ensures Valid()
      ensures inicio == 0 && fim == |Queue()|
      ensures Queue() == Without(old(Queue()), i)
      ensures fila[..fim] == Queue()
    {
      ghost var q0 := Queue();
      ghost var f0 := fila[..];
      LiveBounds(fila[..], inicio, fim);
      var nova := new int[N];
      var novoFim := 0;
      ghost var taken := 0;
      while inicio != fim
        invariant Valid()
        invariant fila[..] == f0 && fim == old(fim)
        invariant 0 <= taken <= |q0| && Queue() == q0[taken..]
        invariant 0 <= novoFim <= taken
        invariant nova[..novoFim] == Without(q0[..taken], i)
        invariant AllIndices(nova[..novoFim])
        decreases |Queue()|
      {
        LiveBounds(fila[..], inicio, fim);
        var idx := Dequeue();
        assert q0[..taken + 1] == q0[..taken] + [idx];
        WithoutAppend(q0[..taken], [idx], i);
        if idx != i {
          nova[novoFim] := idx;
          novoFim := novoFim + 1;
        }
        taken := taken + 1;
      }
      LiveBounds(fila[..], inicio, fim);
      assert taken == |q0| && q0[..taken] == q0;
      WithoutMembers(q0, i);
      Install(nova, novoFim);
    }

    /** The memcpy back into fila, with inicio reset to 0 and fim to the count. */
    method Install(nova: array<int>, count: int)
      requires Valid() && nova.Length == N && nova != fila && 0 <= count < N
      requires AllIndices(nova[..count])
      modifies fila, this`inicio, this`fim
      ensures Valid()
      ensures fila[..] == nova[..] && inicio == 0 && fim == count
      ensures Queue() == nova[..count]
    {
      forall k | 0 <= k < N {
        fila[k] := nova[k];
      }
      inicio := 0;
      fim := count;
      LiveFromZero(fila[..], fim);
    }
  }
}
